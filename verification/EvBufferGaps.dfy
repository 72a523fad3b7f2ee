/**
 * Runs of public operations into the states in which an operation does not keep its promise:
 * empty chains before data, areas behind empty chains, prepends that run out of memory.
 */
module EvBufferGaps {
  import opened Bytes
  import opened Chains
  import opened Counting
  import opened EvBuffers
  import opened Layouts

  /** A new buffer with a single chain. */
  method OneChain(bytes: seq<byte>) returns (buf: EvBuffer)
    requires |bytes| <= 1000
    ensures fresh(buf) && buf.Valid() && !buf.freezeStart && !buf.freezeEnd && buf.g.data == [bytes]
    ensures buf.Contents() == bytes && forall c :: c in buf.g.chains ==> fresh(c)
  {
    buf := new EvBuffer();
    var r := buf.Add(bytes, true);
    assert [] + bytes == bytes;
  }

  /** A buffer with one chain that holds a byte and an empty one behind it. */
  method WithEmptyChain(b: byte) returns (buf: EvBuffer)
    ensures fresh(buf) && buf.Valid() && !buf.freezeStart && !buf.freezeEnd && buf.g.data == [[b], []]
    ensures buf.Contents() == [b] && forall c :: c in buf.g.chains ==> fresh(c)
  {
    hide Flatten, NoDup;
    buf := OneChain([b]);
    ghost var was := buf.g;
    LinkedAt(was.chains, was.data, null, 0);
    var size := buf.first.bufferLen;
    assert forall i :: 0 <= i < |was.chains| ==> was.chains[i] in was.chains;
    var r, vecs := buf.ReserveSpace(size, 2, true);
    OneMore(buf, was, vecs, size);
  }

  lemma OneMore(buf: EvBuffer, was: Layout, vecs: seq<IoVec>, size: nat)
    requires buf.Valid() && was.Ok() && |was.data| == 1 && |was.data[0]| == 1 && buf.g.Regrown(was)
    requires was.chains[0].bufferLen == size && buf.g.chains != [] && buf.g.chains[buf.g.lwd].Ok()
    requires buf.Fit(buf.Usable(), vecs) && Sum(Lens(vecs)) >= size
    ensures buf.g.data == [was.data[0], []]
  {
    hide Flatten, NoDup;
    var g := buf.g;
    assert was.Cut().chains == was.chains && was.Cut().data == was.data && was.Kept() == 1;
    assert g.Kept() == 1 && g.lwd == 0 && g.data[..1] == was.data && g.chains[..1] == was.chains;
    assert g.data[0] == g.data[..1][0] && g.chains[0] == g.chains[..1][0];
    LinkedAt(g.chains, g.data, null, 0);
    buf.OnlySpace(vecs);
  }

  method TwoChains(b: byte, c: byte) returns (buf: EvBuffer)
    ensures fresh(buf) && buf.Valid() && !buf.freezeStart && !buf.freezeEnd && buf.g.data == [[b], [c]]
    ensures buf.Contents() == [b, c] && forall c :: c in buf.g.chains ==> fresh(c)
  {
    hide Flatten, NoDup, EvBuffer.Valid, EvBuffer.Contents;
    buf := OneChain([b]);
    var back := OneChain([c]);
    Fresh(buf);
    Fresh(back);
    assert buf.g.Cut().data == [[b]];
    var r := buf.AddBuffer(back);
    assert [b] + [c] == [b, c];
  }

  lemma Fresh(buf: EvBuffer)
    ensures forall i :: 0 <= i < |buf.g.chains| ==> buf.g.chains[i] in buf.g.chains
    ensures buf.Valid() ==> buf.g.Ok()
  {
  }

  /** All four chains of the source are made with evbuffer_add, evbuffer_reserve_space, evbuffer_add_buffer
      and evbuffer_prepend_buffer; moving two bytes out of it leaves data that the cache does not lead to. */
  method SpoiledByRemoveBuffer() returns (dst: EvBuffer, src: EvBuffer)
    ensures fresh(dst) && fresh(src)
    ensures dst.Spoiled() || src.Spoiled()
  {
    hide Flatten, NoDup, EvBuffer.Valid, EvBuffer.Contents, EvBuffer.Spoiled, Movable;
    var front := WithEmptyChain(1);
    src := TwoChains(2, 3);
    Fresh(front);
    Fresh(src);
    var r := src.PrependBuffer(front);
    dst := new EvBuffer();
    Fresh(src);
    Fresh(dst);
    GapsNotMovable(src.g, dst.g);
    var n := dst.RemoveBuffer(src, 2, true);
  }

  // ---------- Moving without memory ----------

  /** A byte is moved to an empty buffer without memory: it is gone, and the call says that one was moved. */
  method LostByRemoveBuffer() returns (dst: EvBuffer, src: EvBuffer, n: int)
    ensures fresh(dst) && fresh(src) && dst.Valid() && src.Valid() && n == 1
    ensures dst.Contents() == [] && src.Contents() == [8]
  {
    hide Flatten, NoDup, EvBuffer.Valid, EvBuffer.Contents, Movable, EvBuffer.Kept, Whole, Layout.Start;
    src := OneChain([7, 8]);
    dst := new EvBuffer();
    Fresh(src);
    Fresh(dst);
    NothingWhole(dst, src.g);
    n := dst.RemoveBuffer(src, 1, false);
    assert [7, 8][1..] == [8];
  }

  lemma NothingWhole(dst: EvBuffer, src: Layout)
    requires src.Ok() && dst.g == Layout([], [], 0) && src.data == [[7, 8]]
    ensures Whole(src.data, 1) == 0 && src.Start(0) == 0 && |Flatten(src.data)| == 2
    ensures Movable(src, dst.g, 1) && !dst.Kept(src, 1, false)
  {
    hide Flatten, NoDup;
    FlattenOne([7, 8]);
    src.StartEnds(0);
  }

  // ---------- Reserving one area ----------

  /** How much the areas offer when there are no more than three. */
  lemma FewAreas(vecs: seq<IoVec>)
    ensures |vecs| == 1 ==> Sum(Lens(vecs)) == vecs[0].len
    ensures |vecs| == 2 ==> Sum(Lens(vecs)) == vecs[0].len + vecs[1].len
    ensures |vecs| == 3 ==> Sum(Lens(vecs)) == vecs[0].len + vecs[1].len + vecs[2].len
  {
    if |vecs| == 1 { assert Lens(vecs) == [vecs[0].len]; }
    if |vecs| == 2 { TwoLens(vecs[0].len, vecs[1].len); assert Lens(vecs) == [vecs[0].len, vecs[1].len]; }
    if |vecs| == 3 {
      assert Lens(vecs) == [vecs[0].len, vecs[1].len, vecs[2].len] && Lens(vecs)[1..] == [vecs[1].len, vecs[2].len];
      TwoLens(vecs[1].len, vecs[2].len);
    }
  }

  lemma TwoLens(a: nat, b: nat)
    ensures Sum([a, b]) == a + b
  {
    assert [a, b][1..] == [b] && Sum([b]) == b;
  }

  /** The first chain has 900 bytes of data, 76 bytes of space, and empty chains behind it. */
  ghost predicate Filled(buf: EvBuffer)
    reads buf, buf.g.chains
  {
    && buf.Valid() && !buf.freezeEnd && buf.g.chains != [] && buf.g.lwd == 0
    && |buf.g.data[0]| == 900 && buf.g.chains[0].bufferLen == 976 && buf.g.chains[0].misalign == 0
  }

  lemma FirstSpace(buf: EvBuffer)
    requires Filled(buf)
    ensures forall i :: 0 <= i < |buf.g.chains| ==> buf.g.chains[i].Ok() && buf.g.chains[i] in buf.g.chains
    ensures buf.g.chains[0].off == 900 && buf.g.chains[0].SpaceLen() == 76 && buf.Usable() == 0
    ensures forall i :: 0 < i < |buf.g.chains| ==> buf.g.chains[i].off == 0
  {
    hide Flatten, NoDup;
    forall i | 0 <= i < |buf.g.chains|
      ensures buf.g.chains[i].Ok() && buf.g.chains[i].off == |buf.g.data[i]|
    {
      LinkedAt(buf.g.chains, buf.g.data, null, i);
    }
  }

  /** Reserving more areas than there are chains leaves the first chain as it is. */
  lemma StillFilled(buf: EvBuffer, was: Layout, first: Chain)
    requires buf.Valid() && !buf.freezeEnd && was.Ok() && buf.g.Regrown(was) && was.chains <= buf.g.chains
    requires was.chains != [] && was.lwd == 0 && |was.data[0]| == 900 && first == was.chains[0]
    requires first.bufferLen == 976 && first.misalign == 0
    ensures Filled(buf)
  {
    hide Flatten, NoDup;
    assert was.Kept() == 1 && was.Cut().data == was.data[..1] && was.Cut().lwd == 0;
    assert buf.g.Kept() == 1 && buf.g.data[..1] == was.data[..1];
    assert buf.g.data[0] == buf.g.data[..1][0] && was.data[0] == was.data[..1][0];
  }

  method FirstChain() returns (buf: EvBuffer)
    ensures fresh(buf) && Filled(buf) && |buf.g.chains| == 1
    ensures forall c :: c in buf.g.chains ==> fresh(c)
  {
    buf := new EvBuffer();
    var r := buf.Add(seq(900, _ => 0), true);
  }

  /** Reserve as much as needs a second chain. */
  method SecondChain() returns (buf: EvBuffer)
    ensures fresh(buf) && Filled(buf) && |buf.g.chains| == 2 && buf.g.chains[1].SpaceLen() >= 100
    ensures buf.g.chains[1].bufferLen <= 2000
    ensures forall c :: c in buf.g.chains ==> fresh(c)
  {
    hide Flatten, NoDup, EvBuffer.Valid;
    buf := FirstChain();
    FirstSpace(buf);
    ghost var was, first := buf.g, buf.g.chains[0];
    AreOk(buf);
    var r, vecs := buf.ReserveSpace(200, 2, true);
    AreOk(buf);
    StillFilled(buf, was, first);
    FirstSpace(buf);
    FewAreas(vecs);
  }

  lemma AreOk(buf: EvBuffer)
    requires buf.Valid()
    ensures buf.g.Ok() && forall i :: 0 <= i < |buf.g.chains| ==> buf.g.chains[i] in buf.g.chains
  {
  }

  /** And as much as needs a third one. */
  method ThirdChain() returns (buf: EvBuffer, vecs: seq<IoVec>)
    ensures fresh(buf) && Filled(buf) && |buf.g.chains| == 3 && buf.g.chains[1].SpaceLen() >= 100
    ensures |vecs| == 3 && buf.Fit(0, vecs) && vecs[2].len > 0
    ensures forall c :: c in buf.g.chains ==> fresh(c)
  {
    hide Flatten, NoDup, EvBuffer.Valid;
    buf := SecondChain();
    FirstSpace(buf);
    ghost var was, first := buf.g, buf.g.chains[0];
    AreOk(buf);
    var r;
    r, vecs := buf.ReserveSpace(3000, 3, true);
    AreOk(buf);
    StillFilled(buf, was, first);
    FirstSpace(buf);
    FewAreas(vecs);
    assert buf.g.chains[1] == was.chains[1];
  }

  lemma IsStuck(buf: EvBuffer)
    requires Filled(buf) && |buf.g.chains| == 3 && buf.g.chains[1].Ok() && buf.g.chains[1].SpaceLen() >= 100
    ensures buf.Stuck(100)
  {
    hide Flatten, NoDup;
    FirstSpace(buf);
  }

  /** The space of the second chain is reserved alone and refused when it is to be committed. */
  method StuckReservation() returns (reserved: int, committed: int)
    ensures reserved == 1 && committed == -1
  {
    hide Flatten, NoDup, EvBuffer.Valid, EvBuffer.Stuck, EvBuffer.Fit, EvBuffer.Lone, EvBuffer.Contents;
    var buf, areas := ThirdChain();
    FirstSpace(buf);
    var vecs, pieces;
    AreOk(buf);
    IsStuck(buf);
    reserved, vecs := buf.ReserveSpace(100, 1, true);
    AreOk(buf);
    committed, pieces := buf.FillAndCommit(vecs, [[1]]);
  }

  /** Of three areas only the last one is used: its byte is committed, but the cache does not lead to it. */
  method CommittedBehind() returns (buf: EvBuffer, r: int)
    ensures fresh(buf) && r == 0 && buf.Tracked() && !buf.Valid()
  {
    hide Flatten, NoDup, EvBuffer.Valid, EvBuffer.Tracked;
    var vecs;
    buf, vecs := ThirdChain();
    FirstSpace(buf);
    AreOk(buf);
    assert buf.g.chains[2] == vecs[2].chain;
    buf.WriteArea(vecs, 2, [1], 0);
    buf.LastAt();
    var area := IoVec(vecs[2].chain, vecs[2].at, 1);
    r := buf.CommitSpace([area], [[1]]);
  }

  // ---------- Prepending without memory ----------

  /** A prepend of 3000 bytes fails because there is no memory for a second chain, and leaves some of them. */
  method PrependedInPart() returns (buf: EvBuffer, r: int)
    ensures fresh(buf) && buf.Valid() && r == -1 && 0 < |buf.Contents()| < 3000
  {
    hide Flatten, NoDup, EvBuffer.Valid;
    buf := new EvBuffer();
    var n, vecs := buf.ReserveSpace(100, 2, true);
    AreOk(buf);
    EmptyRoom(buf);
    buf.ValidCounts();
    var room := buf.FrontRoom();
    var bytes := seq(3000, _ => 0);
    r := buf.Prepend(bytes, false);
    assert buf.Contents() == bytes[|bytes| - room..] + [];
  }

  lemma EmptyRoom(buf: EvBuffer)
    requires buf.Valid() && buf.g.chains != [] && buf.Contents() == []
    ensures buf.first != null && 0 < buf.FrontRoom() <= buf.g.chains[0].bufferLen
  {
    hide Flatten, NoDup;
    LinkedAt(buf.g.chains, buf.g.data, null, 0);
    if buf.g.data[0] != [] { FlattenNonEmpty(buf.g.data, 0); }
  }

  // ---------- Spanning to the end ----------

  /** Where evbuffer_strspn ends in a buffer of one byte that is in the set, no position of the buffer is. */
  method SpannedToTheEnd() returns (buf: EvBuffer, count: nat, q: Ptr)
    ensures fresh(buf) && buf.Valid() && count == 1 && q.pos == 1 && !buf.PtrOk(q)
  {
    buf := OneChain([7]);
    var p := Ptr(0, buf.first, 0);
    count, q := buf.StrSpn(p, [7], 0);
  }
}
