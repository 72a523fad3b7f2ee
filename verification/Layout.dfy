/** What a list of chains looks like, as a value, and what the operations of an evbuffer do to it. */
module Layouts {
  import opened Bytes
  import opened Chains
  import opened Counting

  /** All segments from index k on are empty. */
  ghost predicate EmptyFrom(ds: seq<seq<byte>>, k: nat) {
    forall j :: k <= j < |ds| ==> ds[j] == []
  }

  /** Where advance_last_with_data stops when it starts at index k. */
  ghost function Advance(ds: seq<seq<byte>>, k: nat): (a: nat)
    requires k < |ds|
    ensures k <= a < |ds| && (a + 1 < |ds| ==> ds[a + 1] == [])
    decreases |ds| - k
  {
    if k + 1 < |ds| && ds[k + 1] != [] then Advance(ds, k + 1) else k
  }

  /** Behind index k, all segments that follow an empty one are empty. */
  ghost predicate NoGap(ds: seq<seq<byte>>, k: nat) {
    forall i, j :: k < i < j < |ds| && ds[i] == [] ==> ds[j] == []
  }

  /** Advancing finds the last segment with data exactly when no empty one lies before it. */
  lemma {:induction false} AdvanceExact(ds: seq<seq<byte>>, k: nat)
    requires k < |ds| && (k > 0 ==> ds[k] != [])
    ensures Advance(ds, k) > 0 ==> ds[Advance(ds, k)] != []
    ensures EmptyFrom(ds, Advance(ds, k) + 1) <==> NoGap(ds, k)
    decreases |ds| - k
  {
    if k + 1 < |ds| && ds[k + 1] != [] {
      AdvanceExact(ds, k + 1);
    }
  }

  /** Where an element is put in front, the rest moves up by one. */
  lemma LaterEmpty(ds: seq<seq<byte>>, k: nat)
    requires ds != [] && EmptyFrom(ds[1..], k)
    ensures EmptyFrom(ds, k + 1)
  {
    assert forall j :: k + 1 <= j < |ds| ==> ds[j] == ds[1..][j - 1];
  }

  /** How many leading segments fit into n bytes as a whole. */
  ghost function Whole(ds: seq<seq<byte>>, n: nat): (i: nat)
    ensures i <= |ds|
  {
    if ds != [] && |ds[0]| <= n then 1 + Whole(ds[1..], n - |ds[0]|) else 0
  }

  lemma WholeStep(ds: seq<seq<byte>>, i: nat, n: nat)
    requires i < |ds|
    ensures Whole(ds[i..], n) == if |ds[i]| <= n then 1 + Whole(ds[i + 1..], n - |ds[i]|) else 0
  {
    assert ds[i..][1..] == ds[i + 1..];
  }

  /** When evbuffer_remove_buffer of len bytes keeps both caches right: the chains moved as a whole
      have no empty one between data, and skipping empty chains does not end at the only data. */
  ghost predicate Movable(src: Layout, dst: Layout, len: nat)
    requires src.Ok() && dst.Ok()
  {
    var i := Whole(src.data, len);
    || len >= |Flatten(src.data)|
    || (if src.Start(i) > 0 then NoGap(dst.Cut().data + src.data[..i], dst.Cut().lwd)
        else i == 0 || i < src.lwd)
  }

  lemma AllMovable(src: Layout, dst: Layout, len: nat)
    requires src.Ok() && dst.Ok() && len >= |Flatten(src.data)|
    ensures Movable(src, dst, len)
  {
  }

  lemma PartMovable(src: Layout, dst: Layout, len: nat)
    requires src.Ok() && dst.Ok() && len < |Flatten(src.data)|
    ensures var i := Whole(src.data, len);
            Movable(src, dst, len) <==>
            if src.Start(i) > 0 then NoGap(dst.Cut().data + src.data[..i], dst.Cut().lwd) else i == 0 || i < src.lwd
  {
  }

  /** Two layouts that break the cache: an empty chain moved between two with data, and an empty
      chain skipped in front of the only one with data. */
  lemma GapsNotMovable(src: Layout, dst: Layout)
    requires src.Ok() && dst == Layout([], [], 0)
    ensures src.data == [[1], [], [2], [3]] ==> !Movable(src, dst, 2)
    ensures src.data == [[], [1, 2]] ==> !Movable(src, dst, 1)
  {
    hide Movable;
    if src.data == [[1], [], [2], [3]] { GapBetween(src, dst); }
    if src.data == [[], [1, 2]] { EmptyInFront(src, dst); }
  }

  lemma GapBetween(src: Layout, dst: Layout)
    requires src.Ok() && dst == Layout([], [], 0) && src.data == [[1], [], [2], [3]]
    ensures !Movable(src, dst, 2)
  {
    hide Flatten, Whole, NoGap;
    var ds := src.data;
    var moved: seq<seq<byte>> := [[1], [], [2]];
    ThreeWhole(ds);
    assert ds[..3] == moved && [] + moved == moved;
    FlattenNonEmpty(moved, 0);
    FlattenCut(ds, 3);
    FlattenNonEmpty(ds[3..], 0);
    assert |Flatten(moved)| == 2 by { ThreeSizes(); }
    assert dst.Cut().data == [] && dst.Cut().lwd == 0;
    assert !NoGap(moved, 0) by { GapAt(moved, 1, 2); }
  }

  lemma GapAt(ds: seq<seq<byte>>, i: nat, j: nat)
    requires 0 < i < j < |ds| && ds[i] == [] && ds[j] != []
    ensures !NoGap(ds, 0)
  {
  }

  lemma ThreeSizes()
    ensures |Flatten([[1], [], [2]])| == 2
  {
    var ds: seq<seq<byte>> := [[1], [], [2]];
    FlattenHead(ds, 0);
    FlattenHead(ds, 1);
    FlattenHead(ds, 2);
    assert ds[0..] == ds && ds[3..] == [];
  }

  lemma ThreeWhole(ds: seq<seq<byte>>)
    requires ds == [[1], [], [2], [3]]
    ensures Whole(ds, 2) == 3
  {
    hide Whole;
    WholeStep(ds, 0, 2);
    WholeStep(ds, 1, 1);
    WholeStep(ds, 2, 1);
    WholeStep(ds, 3, 0);
    assert ds[0..] == ds;
  }

  lemma EmptyInFront(src: Layout, dst: Layout)
    requires src.Ok() && dst == Layout([], [], 0) && src.data == [[], [1, 2]]
    ensures !Movable(src, dst, 1)
  {
    hide Flatten, Whole;
    var ds := src.data;
    WholeStep(ds, 0, 1);
    WholeStep(ds, 1, 1);
    assert ds[0..] == ds && ds[..1] == [[]];
    FlattenOne([]);
    FlattenSplit(ds, 1);
    assert src.lwd == 1;
  }

  /** What the list of a buffer looks like: its chains in order, the bytes each of them
      holds, and the index of the last chain with data (0 if there is none). */
  datatype Layout = Layout(chains: seq<Chain>, data: seq<seq<byte>>, lwd: nat) {

    ghost predicate Sized() {
      |data| == |chains| && if chains == [] then lwd == 0 else lwd < |chains|
    }

    ghost predicate Ok() {
      && Sized()
      && NoDup(chains)
      && (lwd > 0 ==> data[lwd] != [])
      && EmptyFrom(data, lwd + 1)
    }

    /** Advancing from lwd goes no further, but there may be data behind the next chain. */
    ghost predicate Stops() {
      && Sized()
      && NoDup(chains)
      && (lwd > 0 ==> data[lwd] != [])
      && (lwd + 1 < |data| ==> data[lwd + 1] == [])
    }

    lemma OkStops()
      ensures Ok() <==> Stops() && EmptyFrom(data, lwd + 1)
    {
    }

    /** Where advancing from index k has led. */
    lemma AdvancedTo(k: nat)
      requires Sized() && NoDup(chains) && k < |data| && lwd == Advance(data, k) && (k > 0 ==> data[k] != [])
      ensures Stops() && (EmptyFrom(data, lwd + 1) <==> NoGap(data, k))
    {
      hide Advance, NoGap, EmptyFrom, NoDup;
      AdvanceExact(data, k);
    }

    lemma StopsNone()
      requires Stops() && chains == []
      ensures Ok() && Cut() == this
    {
    }

    /** How many chains are kept when trailing empty chains are freed. */
    ghost function Kept(): (k: nat)
      requires Sized()
      ensures k <= |chains|
    {
      if chains == [] || data[lwd] == [] then 0 else lwd + 1
    }

    ghost function Cut(): (g: Layout)
      requires Sized()
    {
      var k := Kept();
      Layout(chains[..k], data[..k], if k == 0 then 0 else lwd)
    }

    lemma CutOk()
      requires Ok()
      ensures Cut().Ok() && Flatten(Cut().data) == Flatten(data)
      ensures Kept() == 0 <==> Flatten(data) == []
    {
      FlattenTail(data, Kept());
      DistinctCut(chains, Kept());
      if Kept() > 0 { FlattenSnoc(data, lwd); }
    }

    lemma CutApart(b: seq<Chain>)
      requires Sized() && Disjoint(b, chains)
      ensures Disjoint(b, Cut().chains)
    {
    }

    lemma LastData()
      requires Ok() && Flatten(data) != []
      ensures chains != [] && lwd < |chains| == |data| && data[lwd] != []
    {
      CutOk();
    }

    /** What is cut off is what lies behind the place where the cache stops. */
    lemma CutStops()
      requires Stops()
      ensures Cut().Ok()
      ensures !EmptyFrom(data, lwd + 1) ==> |Flatten(Cut().data)| < |Flatten(data)|
    {
      DistinctCut(chains, Kept());
      FlattenCut(data, Kept());
      if !EmptyFrom(data, lwd + 1) {
        var j :| lwd + 1 <= j < |data| && data[j] != [];
        FlattenNonEmpty(data[Kept()..], j - Kept());
      }
    }

    /** The chain the cache names now holds d. */
    ghost function Refill(d: seq<byte>): Layout
      requires Sized() && chains != []
    {
      Layout(chains, data[lwd := d], lwd)
    }

    lemma RefillOk(d: seq<byte>, more: seq<byte>)
      requires Ok() && chains != [] && d == data[lwd] + more
      ensures Refill(d).Ok() && Flatten(Refill(d).data) == Flatten(data) + more
    {
      var ds := data[lwd := d];
      FlattenTail(data, lwd + 1);
      FlattenTail(ds, lwd + 1);
      FlattenSnoc(data, lwd);
      FlattenSnoc(ds, lwd);
      assert ds[..lwd] == data[..lwd];
    }

    lemma RefillStops(d: seq<byte>, more: seq<byte>)
      requires Stops() && chains != [] && d == data[lwd] + more
      ensures Refill(d).Stops() && |Flatten(Refill(d).data)| == |Flatten(data)| + |more|
      ensures EmptyFrom(Refill(d).data, lwd + 1) <==> EmptyFrom(data, lwd + 1)
    {
      var ds := data[lwd := d];
      FlattenSplit(data, lwd);
      FlattenSplit(ds, lwd);
      assert ds[..lwd] == data[..lwd] && ds[lwd + 1..] == data[lwd + 1..];
      assert forall j :: lwd + 1 <= j < |data| ==> ds[j] == data[j];
    }

    /** The chain at index c, at or behind the last one with data, gets more bytes. */
    ghost function Extend(c: nat, more: seq<byte>): Layout
      requires c < |data|
    {
      Layout(chains, data[c := data[c] + more], if more == [] then lwd else c)
    }

    lemma ExtendOk(c: nat, more: seq<byte>)
      requires Ok() && lwd <= c < |data|
      ensures Extend(c, more).Ok() && Flatten(Extend(c, more).data) == Flatten(data) + more
    {
      var ds := data[c := data[c] + more];
      FlattenTail(data, c + 1);
      FlattenTail(ds, c + 1);
      FlattenSnoc(data, c);
      FlattenSnoc(ds, c);
      assert ds[..c] == data[..c];
      if more == [] {
        assert data[c] + more == data[c];
        assert ds == data;
      }
    }

    /** Bytes put into the very last chain are found from lwd on unless an empty chain is skipped. */
    lemma ExtendGap(more: seq<byte>)
      requires Ok() && chains != []
      ensures var c := |data| - 1;
              var ds := data[c := data[c] + more];
              && (lwd > 0 ==> ds[lwd] != [])
              && (NoGap(ds, lwd) <==> more == [] || lwd + 2 >= |data|)
    {
      var c := |data| - 1;
      var ds := data[c := data[c] + more];
      if more != [] && lwd + 2 < |data| {
        assert ds[lwd + 1] == [] && ds[c] != [];
      }
    }

    lemma StaysPut(more: seq<byte>)
      requires Ok() && chains != [] && more == []
      ensures Advance(data[|data| - 1 := data[|data| - 1] + more], lwd) == lwd
    {
    }

    /** A chain holding d is linked in behind all others. */
    ghost function Push(c: Chain, d: seq<byte>): Layout {
      Layout(chains + [c], data + [d], if d != [] then |chains| else lwd)
    }

    lemma PushOk(c: Chain, d: seq<byte>)
      requires Ok() && c !in chains
      ensures Push(c, d).Ok() && Flatten(Push(c, d).data) == Flatten(data) + d
    {
      DistinctJoin(chains, [c]);
      FlattenConcat(data, [d]);
      FlattenOne(d);
    }

    /** The chains with data are those of o, and at most one chain was added. */
    ghost predicate Regrown(o: Layout)
      requires Sized() && o.Sized()
    {
      Cut() == o.Cut() && |chains| <= |o.chains| + 1
    }

    lemma CutAgain()
      requires Ok()
      ensures Cut().Sized() && |Cut().chains| <= |chains| && Cut().Cut() == Cut()
    {
    }

    lemma PushRegrown(c: Chain)
      requires Ok()
      ensures Push(c, []).Sized() && Push(c, []).Regrown(this)
      ensures Regrown(this) && Cut().Sized() && Cut().Regrown(this) && Push(c, []).Cut() == Cut()
      ensures |Cut().chains| <= |chains| && Cut().Cut() == Cut()
    {
      var p := Push(c, []);
      assert chains != [] ==> p.data[lwd] == data[lwd];
      assert p.chains[..Kept()] == chains[..Kept()] && p.data[..Kept()] == data[..Kept()];
    }

    /** Another chain in the place of the last one with data. */
    lemma ExchangeOk(c: Chain)
      requires Ok() && chains != [] && c !in chains
      ensures Layout(chains[lwd := c], data, lwd).Ok()
    {
    }

    /** The first chain now holds d. */
    ghost function RefillFirst(d: seq<byte>): Layout
      requires Ok() && chains != []
    {
      Layout(chains, data[0 := d], lwd)
    }

    lemma RefillFirstOk(d: seq<byte>, more: seq<byte>)
      requires Ok() && chains != [] && d == more + data[0]
      ensures RefillFirst(d).Ok() && Flatten(RefillFirst(d).data) == more + Flatten(data)
    {
      assert data[0 := d][1..] == data[1..];
    }

    /** A chain holding d is put in front of all others. */
    ghost function Cons(c: Chain, d: seq<byte>): Layout {
      Layout([c] + chains, [d] + data, lwd + 1)
    }

    lemma ConsOk(c: Chain, d: seq<byte>)
      requires Ok() && chains != [] && data[lwd] != [] && c !in chains
      ensures Cons(c, d).Ok() && Flatten(Cons(c, d).data) == d + Flatten(data)
    {
      DistinctJoin([c], chains);
      assert ([d] + data)[1..] == data;
    }

    /** Without the first i chains, and without the first n bytes of the next one. */
    ghost function Drop(i: nat, n: nat): Layout
      requires Ok() && i < |chains| && i <= lwd && n <= |data[i]|
    {
      Layout(chains[i..], [data[i][n..]] + data[i + 1..], lwd - i)
    }

    lemma DropOk(i: nat, n: nat)
      requires Ok() && i < |chains| && i <= lwd && n <= |data[i]| && (n == 0 || n < |data[i]|)
      ensures Drop(i, n).Ok()
      ensures |Flatten(data[..i])| + n <= |Flatten(data)|
      ensures Flatten(Drop(i, n).data) == Flatten(data)[|Flatten(data[..i])| + n..]
    {
      DistinctCut(chains, i);
      FlattenSplit(data, i);
      assert ([data[i][n..]] + data[i + 1..])[1..] == data[i + 1..];
    }

    /** The chains of o behind those of this one. */
    ghost function Join(o: Layout): Layout {
      Layout(chains + o.chains, data + o.data, |chains| + o.lwd)
    }

    ghost predicate Apart(o: Layout) {
      Disjoint(chains, o.chains)
    }

    lemma JoinOk(o: Layout)
      requires Ok() && o.Ok() && Apart(o) && o.chains != [] && o.data[o.lwd] != []
      ensures Join(o).Ok() && Flatten(Join(o).data) == Flatten(data) + Flatten(o.data)
      ensures var cs := chains + o.chains;
              && cs[|cs| - 1] == o.chains[|o.chains| - 1]
              && if o.lwd > 0 then cs[|chains| + o.lwd - 1] == o.chains[o.lwd - 1]
                 else chains != [] ==> cs[|chains| - 1] == chains[|chains| - 1]
    {
      DistinctJoin(chains, o.chains);
      FlattenConcat(data, o.data);
    }

    /** The bytes stored before the chain at index k. */
    ghost function Start(k: nat): nat
      requires k <= |data|
    {
      |Flatten(data[..k])|
    }

    lemma StartStep(k: nat)
      requires Ok() && k < |data|
      ensures Start(k + 1) == Start(k) + |data[k]| <= |Flatten(data)|
      ensures Flatten(data)[Start(k)..Start(k + 1)] == data[k]
    {
      FlattenSnoc(data, k);
      FlattenSplit(data, k);
    }

    /** Remove n bytes from the chain at index k, where all data begins. */
    ghost function Trim(k: nat, n: nat): Layout
      requires k < |data| && n <= |data[k]|
    {
      Layout(chains, data[k := data[k][n..]], lwd)
    }

    lemma TrimOk(k: nat, n: nat)
      requires Ok() && k < |data| && k <= lwd && Start(k) == 0 && n < |data[k]|
      ensures Trim(k, n).Ok() && n <= |Flatten(data)| && Flatten(Trim(k, n).data) == Flatten(data)[n..]
    {
      var ds := data[k := data[k][n..]];
      FlattenSplit(data, k);
      FlattenSplit(ds, k);
      assert ds[..k] == data[..k] && ds[k + 1..] == data[k + 1..];
    }

    /** The first n bytes moved into the chain c, those of the first j chains and a part of the next one. */
    ghost function Pulled(c: Chain, j: nat, n: nat): Layout
      requires |data| == |chains| && j <= |data| && Start(j) <= n <= |Flatten(data)|
      requires j < |data| ==> n - Start(j) <= |data[j]|
    {
      Layout([c] + chains[j..], [Flatten(data)[..n]] + Rest(j, n - Start(j)), if lwd < j then 0 else lwd - j + 1)
    }

    ghost function Rest(j: nat, m: nat): seq<seq<byte>>
      requires j < |data| ==> m <= |data[j]|
    {
      if j < |data| then [data[j][m..]] + data[j + 1..] else []
    }

    lemma RestOk(j: nat, m: nat)
      requires j <= |data| && (if j < |data| then m <= |data[j]| else m == 0)
      ensures Start(j) + m <= |Flatten(data)| && Flatten(Rest(j, m)) == Flatten(data)[Start(j) + m..]
    {
      FlattenCut(data, j);
      if j < |data| {
        FlattenHead(data, j);
        assert Rest(j, m)[1..] == data[j + 1..];
      }
    }

    lemma PulledOk(c: Chain, j: nat, n: nat)
      requires Ok() && j <= |data| && Start(j) <= n <= |Flatten(data)| && n > 0
      requires if j < |data| then n - Start(j) < |data[j]| || (n == Start(j) && lwd < j) else n == Start(j)
      requires c !in chains[j..]
      ensures Pulled(c, j, n).Ok() && Flatten(Pulled(c, j, n).data) == Flatten(data)
    {
      hide Flatten, EmptyFrom, NoDup, Rest, Start;
      var rest := Rest(j, n - Start(j));
      RestOk(j, n - Start(j));
      DistinctCut(chains, j);
      DistinctJoin([c], chains[j..]);
      RestEmpty(j, n - Start(j));
      var ds := [Flatten(data)[..n]] + rest;
      FlattenHead(ds, 0);
      assert ds[0..] == ds && ds[1..] == rest;
      LaterEmpty(ds, if lwd < j then 0 else lwd - j + 1);
    }

    /** What is left behind the bytes pulled up: how long it is, and where its data ends. */
    lemma RestEmpty(j: nat, m: nat)
      requires Ok() && j <= |data|
      requires if j < |data| then m < |data[j]| || (m == 0 && lwd < j) else m == 0
      ensures |Rest(j, m)| == |chains[j..]|
      ensures EmptyFrom(Rest(j, m), if lwd < j then 0 else lwd - j + 1)
      ensures lwd >= j && j < |data| ==> Rest(j, m)[lwd - j] != []
    {
    }

    lemma PulledCache(c: Chain, j: nat, n: nat)
      requires Ok() && j <= |data| && Start(j) <= n <= |Flatten(data)| && n > 0
      requires if j < |data| then n - Start(j) < |data[j]| || (n == Start(j) && lwd < j) else n == Start(j)
      ensures var p := Pulled(c, j, n);
              && p.lwd <= |p.chains| && |p.chains| > 0
              && (p.lwd == 1 ==> p.chains[0] == c)
              && (p.lwd > 1 ==> p.chains[p.lwd - 1] == chains[lwd - 1])
              && p.chains[|p.chains| - 1] == (if j < |chains| then chains[|chains| - 1] else c)
    {
      hide Flatten, NoDup, EmptyFrom, Start, Rest;
    }

    lemma StartStepAny(k: nat)
      requires k < |data|
      ensures Start(k) + |data[k]| <= |Flatten(data)|
      ensures Flatten(data)[Start(k)..Start(k) + |data[k]|] == data[k]
    {
      FlattenSplit(data, k);
    }

    lemma StartEnds(k: nat)
      requires Ok() && k <= |data|
      ensures Start(0) == 0 && Start(k) <= |Flatten(data)|
      ensures k > lwd || k == |data| ==> Start(k) == |Flatten(data)|
    {
      FlattenCut(data, k);
      if k > lwd || k == |data| { FlattenTail(data, k); }
    }
  }
}
