/**
 * The evbuffer: a byte stream stored in a linked list of partly filled chains.
 * The abstract value of a buffer is the byte string Contents().
 */
module EvBuffers {
  import opened Options
  import opened Bytes
  import opened Chains
  import opened Counting
  import opened Layouts
  import opened Scanning
  import Eol

  /** A pointer to a pointer: the `first` field of a buffer or the `next` field of a chain. */
  datatype Link = FirstOf(buf: EvBuffer) | NextOf(chain: Chain)

  const SSIZE_MAX: nat := 0x7FFF_FFFF_FFFF_FFFF

  /** A position in a buffer, with the chain it falls into.  pos is -1 for "not found". */
  datatype Ptr = Ptr(pos: int, chain: Chain?, posInChain: nat)

  /** A free area inside a chain: the len bytes from offset at. */
  datatype IoVec = IoVec(chain: Chain, at: nat, len: nat) {
    ghost predicate Holds(bytes: seq<byte>)
      reads chain`buffer
    {
      at + len <= |chain.buffer| && chain.buffer[at..at + len] == bytes
    }
  }

  function Lens(vecs: seq<IoVec>): (s: seq<nat>)
    ensures |s| == |vecs|
  {
    seq(|vecs|, i requires 0 <= i < |vecs| => vecs[i].len)
  }

  /** What goes into the k-th area, which has room for len bytes. */
  function Written(fill: seq<seq<byte>>, k: nat, len: nat): (bytes: seq<byte>)
    ensures |bytes| <= len
  {
    if k >= |fill| then [] else if |fill[k]| <= len then fill[k] else fill[k][..len]
  }

  lemma SumOne(vecs: seq<IoVec>)
    requires |vecs| == 1
    ensures Sum(Lens(vecs)) == vecs[0].len
  {
    assert Lens(vecs)[1..] == [];
  }

  class EvBuffer {
    var first: Chain?
    var last: Chain?
    var lastWithData: Link
    var totalLen: nat
    var freezeStart: bool
    var freezeEnd: bool
    ghost var g: Layout

    /** The link to the chain at index k. */
    ghost function LinkTo(k: nat): Link
      requires k <= |g.chains|
      reads this
    {
      LinkIn(g.chains, k)
    }

    ghost function LinkIn(cs: seq<Chain>, k: nat): Link
      requires k <= |cs|
    {
      if k == 0 then FirstOf(this) else NextOf(cs[k - 1])
    }

    /** The links of a joined list are those of its parts, but for the first one of the second part. */
    lemma LinksJoined(o: EvBuffer, a: seq<Chain>, b: seq<Chain>, k: nat)
      requires k <= |b|
      ensures LinkIn(a + b, |a| + k) == if k > 0 then o.LinkIn(b, k) else LinkIn(a, |a|)
      ensures o.LinkIn(b, k) == FirstOf(o) <==> k == 0
      ensures b != [] ==> (a + b)[|a + b| - 1] == b[|b| - 1]
      ensures Head(a + b, null) == Head(a, Head(b, null))
    {
    }

    /** The list from `first` is the layout, and the cache names the link to the chain at which it stops. */
    ghost predicate Listed()
      reads this, g.chains
    {
      && g.Stops()
      && first == Head(g.chains, null)
      && Linked(g.chains, g.data, null)
      && lastWithData == LinkTo(g.lwd)
    }

    /** Everything but `last`: the list from `first` is the layout, the cache names the link to
        the last chain with data (or `first`), and totalLen counts the stored bytes. */
    ghost predicate Core()
      reads this, g.chains
    {
      && g.Ok()
      && first == Head(g.chains, null)
      && Linked(g.chains, g.data, null)
      && lastWithData == LinkTo(g.lwd)
      && totalLen == |Flatten(g.data)|
    }

    ghost predicate Valid()
      reads this, g.chains
    {
      Core() && last == if g.chains == [] then null else g.chains[|g.chains| - 1]
    }

    /** In order, but for data that may lie behind the place where the cache stops. */
    ghost predicate Tracked()
      reads this, g.chains
    {
      && Listed()
      && totalLen == |Flatten(g.data)|
      && last == if g.chains == [] then null else g.chains[|g.chains| - 1]
    }

    /** The list is in order, but the cache may name another chain than the last one with data. */
    ghost predicate Base()
      reads this, g.chains
    {
      && |g.data| == |g.chains| && NoDup(g.chains) && g.lwd < |g.chains|
      && first == Head(g.chains, null)
      && Linked(g.chains, g.data, null)
      && lastWithData == LinkTo(g.lwd)
      && last == g.chains[|g.chains| - 1]
    }

    /** The list is what g says, but there is data behind the cache, or totalLen counts bytes that are gone. */
    ghost predicate Spoiled()
      reads this, g.chains
    {
      Base() && (totalLen != |Contents()| || !EmptyFrom(g.data, g.lwd + 1))
    }

    lemma ValidTracked()
      ensures Valid() <==> Tracked() && EmptyFrom(g.data, g.lwd + 1)
      ensures Spoiled() ==> !Valid()
      ensures Tracked() && !Valid() ==> Spoiled()
    {
      g.OkStops();
    }

    lemma ValidCore()
      requires Valid()
      ensures Core() && last == if g.chains == [] then null else g.chains[|g.chains| - 1]
    {
    }

    /** What Valid says, one thing at a time. */
    lemma InOrder()
      requires Valid()
      ensures g.Ok() && |g.data| == |g.chains| && (if g.chains == [] then g.lwd == 0 else g.lwd < |g.chains|)
      ensures first == Head(g.chains, null) && Linked(g.chains, g.data, null)
      ensures lastWithData == LinkTo(g.lwd) && totalLen == |Contents()|
      ensures last == if g.chains == [] then null else g.chains[|g.chains| - 1]
      ensures Listed()
    {
      g.OkStops();
    }

    lemma Together()
      requires g.Ok() && g.lwd <= |g.chains| && first == Head(g.chains, null) && Linked(g.chains, g.data, null)
      requires lastWithData == LinkTo(g.lwd) && totalLen == |Contents()|
      requires last == if g.chains == [] then null else g.chains[|g.chains| - 1]
      ensures Valid()
    {
    }

    lemma CoreListed()
      requires Core()
      ensures Listed()
    {
      g.OkStops();
    }

    ghost function Contents(): seq<byte>
      reads this
    {
      Flatten(g.data)
    }

    lemma ValidCounts()
      requires Valid()
      ensures totalLen == |Contents()|
    {
    }

    constructor ()
      ensures Valid() && g.chains == [] && Contents() == [] && !freezeStart && !freezeEnd
    {
      first := null;
      last := null;
      lastWithData := FirstOf(this);
      totalLen := 0;
      freezeStart, freezeEnd := false, false;
      g := Layout([], [], 0);
    }

    /** evbuffer_freeze */
    method Freeze(atFront: bool)
      requires Valid()
      modifies this`freezeStart, this`freezeEnd
      ensures Valid() && Contents() == old(Contents())
      ensures freezeStart == (old(freezeStart) || atFront) && freezeEnd == (old(freezeEnd) || !atFront)
    {
      hide Flatten, Linked, NoDup, EmptyFrom;
      if atFront {
        freezeStart := true;
      } else {
        freezeEnd := true;
      }
    }

    /** evbuffer_unfreeze */
    method Unfreeze(atFront: bool)
      requires Valid()
      modifies this`freezeStart, this`freezeEnd
      ensures Valid() && Contents() == old(Contents())
      ensures freezeStart == (old(freezeStart) && !atFront) && freezeEnd == (old(freezeEnd) && atFront)
    {
      hide Flatten, Linked, NoDup, EmptyFrom;
      if atFront {
        freezeStart := false;
      } else {
        freezeEnd := false;
      }
    }

    /** Read through a link of this buffer. */
    function Deref(l: Link): Chain?
      reads this, if l.NextOf? then {l.chain} else {}
    {
      if l.FirstOf? then first else l.chain.next
    }

    lemma DerefAt(k: nat)
      requires first == Head(g.chains, null) && Linked(g.chains, g.data, null) && k <= |g.chains|
      ensures Deref(LinkTo(k)) == if k < |g.chains| then g.chains[k] else null
    {
      if k > 0 { LinkedAt(g.chains, g.data, null, k - 1); }
    }

    /** Find the first chain at or behind the one the cache names that is empty. */
    method FindVictim() returns (ch: Link)
      requires Listed()
      ensures ch == LinkTo(g.Kept())
    {
      hide Flatten, Linked, NoDup;
      ch := lastWithData;
      ghost var i := g.lwd;
      DerefAt(i);
      if i < |g.chains| { LinkedAt(g.chains, g.data, null, i); }
      while Deref(ch) != null && Deref(ch).off != 0
        invariant i == g.lwd || i == g.lwd + 1 == g.Kept()
        invariant i <= |g.chains| && ch == LinkTo(i) && Deref(ch) == if i < |g.chains| then g.chains[i] else null
        invariant i < |g.chains| ==> g.chains[i].off == |g.data[i]|
        decreases g.lwd + 1 - i
      {
        ch := NextOf(Deref(ch));
        i := i + 1;
        DerefAt(i);
        if i < |g.chains| { LinkedAt(g.chains, g.data, null, i); }
      }
    }

    /** Store null through a link: what lies behind is no longer in the list. */
    method CutAt(ch: Link)
      requires Listed() && ch == LinkTo(g.Kept())
      modifies this`first, g.chains`next, this`g
      ensures Listed() && g.Ok() && g == old(g.Cut())
    {
      hide Flatten, Linked, NoDup, EmptyFrom;
      ghost var was := g;
      was.CutStops();
      was.Cut().OkStops();
      if ch.FirstOf? {
        first := null;
        LinkedNone(null);
        assert was.Cut().chains == [] && was.Cut().data == [];
      } else {
        EndAt(ch.chain, was);
      }
      g := was.Cut();
    }

    static method EndAt(chain: Chain, ghost g: Layout)
      requires g.Sized() && NoDup(g.chains) && Linked(g.chains, g.data, null)
      requires 0 < g.Kept() && chain == g.chains[g.Kept() - 1]
      modifies chain`next
      ensures Linked(g.Cut().chains, g.Cut().data, null)
    {
      ghost var k := g.Kept() - 1;
      Relink(chain, null, g.chains, g.data, null, k);
      assert g.Cut().chains == g.chains[..k + 1] && g.Cut().data == g.data[..k + 1];
    }

    /** chain->next = to.  The chains up to this one are then followed by to. */
    static method Relink(chain: Chain, to: Chain?, ghost cs: seq<Chain>, ghost ds: seq<seq<byte>>, ghost end: Chain?,
        ghost k: nat)
      requires Linked(cs, ds, end) && NoDup(cs) && k < |cs| && chain == cs[k]
      modifies chain`next
      ensures Linked(cs[..k + 1], ds[..k + 1], to) && Linked(cs[k + 1..], ds[k + 1..], end)
    {
      Focus(cs, ds, end, k);
      chain.next := to;
      LinkedOne(chain);
      LinkedJoin(cs[..k], ds[..k], [chain], [ds[k]], to);
      assert cs[..k + 1] == cs[..k] + [chain] && ds[..k + 1] == ds[..k] + [ds[k]];
    }

    /** Free the chains from the first empty one on that the cache leads to.  `last` is left stale. */
    method FreeTrailingEmpty() returns (ch: Link)
      requires Listed()
      modifies this`first, this`g, g.chains`next
      ensures Listed() && g.Ok() && g == old(g.Cut()) && ch == LinkTo(|g.chains|)
      ensures old(Core()) ==> Core() && Contents() == old(Contents())
    {
      hide Flatten, Linked, NoDup, EmptyFrom;
      if Core() { g.CutOk(); }
      g.CutStops();
      ch := FindVictim();
      DerefAt(g.Kept());
      if Deref(ch) != null {
        CutAt(ch);
      } else {
        assert g.Cut() == g;
      }
    }

    /** Link the list that starts with `to` in behind all chains. */
    method LinkBehind(chp: Link, to: Chain, ghost b: seq<Chain>, ghost db: seq<seq<byte>>, ghost end: Chain?)
      requires Listed() && chp == LinkTo(|g.chains|)
      requires Linked(b, db, end) && b != [] && to == b[0] && Disjoint(b, g.chains)
      modifies this`first, g.chains`next
      ensures Linked(g.chains + b, g.data + db, end) && first == (g.chains + b)[0]
    {
      hide Flatten, Linked, NoDup, EmptyFrom;
      ghost var k := |g.chains|;
      if chp.FirstOf? {
        first := to;
      } else {
        assert chp.chain in g.chains;
        Relink(chp.chain, to, g.chains, g.data, null, k - 1);
        assert g.chains[..k] == g.chains && g.data[..k] == g.data;
      }
      LinkedJoin(g.chains, g.data, b, db, end);
    }

    /** Link a chain in behind all others. */
    method Attach(chp: Link, chain: Chain)
      requires Listed() && g.Ok() && chp == LinkTo(|g.chains|)
      requires chain.Ok() && chain.next == null && chain !in g.chains
      modifies this`first, this`lastWithData, this`g, this`totalLen, g.chains`next
      ensures Listed() && g.Ok() && g == old(g.Push(chain, chain.Data()))
      ensures totalLen == old(totalLen) + chain.off
    {
      hide Flatten, Linked, NoDup, EmptyFrom;
      ghost var was := g;
      ghost var d := chain.Data();
      was.PushOk(chain, d);
      was.Push(chain, d).OkStops();
      LinkedOne(chain);
      LinkBehind(chp, chain, [chain], [d], null);
      if chain.off != 0 {
        lastWithData := chp;
      }
      totalLen := totalLen + chain.off;
      g := was.Push(chain, d);
    }

    /** Link a chain in at the end, freeing trailing empty chains first. */
    method InsertChain(chain: Chain)
      requires Tracked() && chain.Ok() && chain.next == null && chain !in g.chains
      modifies this`first, this`last, this`lastWithData, this`g, this`totalLen, g.chains`next
      ensures Listed() && g.Ok() && last == chain && totalLen == old(totalLen) + chain.off
      ensures g == old(g.Cut().Push(chain, chain.Data()))
      ensures old(Valid()) ==> Valid() && Contents() == old(Contents()) + chain.Data()
    {
      hide Flatten, Linked, NoDup, EmptyFrom, Valid, Layout.Ok, Layout.Cut;
      if Valid() { ValidInsert(chain); }
      AttachAtEnd(chain);
      last := chain;
      if old(Valid()) { Sound(); }
    }

    method AttachAtEnd(chain: Chain)
      requires Tracked() && chain.Ok() && chain.next == null && chain !in g.chains
      modifies this`first, this`last, this`lastWithData, this`g, this`totalLen, g.chains`next
      ensures Listed() && g.Ok() && totalLen == old(totalLen) + chain.off
      ensures g == old(g.Cut().Push(chain, chain.Data()))
    {
      hide Flatten, Linked, NoDup, EmptyFrom, Layout.Ok;
      DerefAt(g.lwd);
      if Deref(lastWithData) == null {
        g.StopsNone();
        Attach(FirstOf(this), chain);
      } else {
        var chp := FreeTrailingEmpty();
        Attach(chp, chain);
      }
    }

    lemma Sound()
      requires Listed() && g.Ok() && totalLen == |Contents()|
      requires g.chains != [] && last == g.chains[|g.chains| - 1]
      ensures Valid()
    {
    }

    /** Store bytes behind the data of the chain the cache names, which has room for them. */
    method AppendToLast(chain: Chain, bytes: seq<byte>)
      requires Tracked() && g.chains != [] && chain == g.chains[g.lwd]
      requires chain.Ok() && |bytes| <= chain.SpaceLen()
      modifies this`totalLen, this`g, chain`off, chain`buffer
      ensures Tracked() && g == old(g.Refill(g.data[g.lwd] + bytes)) && (Valid() <==> old(Valid()))
      ensures old(Valid()) ==> Contents() == old(Contents()) + bytes
    {
      hide Flatten, Linked, NoDup, EmptyFrom, Valid, Layout.Ok;
      ghost var was, k := g, g.lwd;
      ghost var d := was.data[k] + bytes;
      ValidTracked();
      Focus(was.chains, was.data, null, k);
      was.RefillStops(d, bytes);
      if Valid() { was.OkStops(); was.RefillOk(d, bytes); }
      chain.Append(bytes);
      Refocus(was.chains, was.data, null, k, d);
      totalLen := totalLen + |bytes|;
      g := was.Refill(d);
      ValidTracked();
    }

    /** The chain evbuffer_add writes to: the one the cache names, allocated if there is none. */
    method WritableLast(len: nat, memory: bool) returns (chain: Chain?)
      requires Tracked()
      modifies this`first, this`last, this`lastWithData, this`g, this`totalLen
      ensures Tracked() && (Valid() <==> old(Valid())) && Contents() == old(Contents())
      ensures chain == null <==> old(g.chains) == [] && !(memory && len <= CHAIN_LIMIT)
      ensures chain == null ==> g == old(g)
      ensures chain != null ==> g.chains != [] && chain == g.chains[g.lwd] && chain.Ok()
      ensures old(g.chains) == [] && chain != null ==>
                g.chains == [chain] && g.data == [[]] && fresh(chain) &&
                len <= chain.SpaceLen() && chain.misalign == 0 &&
                (len + CHAIN_SIZE <= MIN_BUFFER_SIZE ==> chain.bufferLen + CHAIN_SIZE == MIN_BUFFER_SIZE)
      ensures old(g.chains) != [] ==> g == old(g)
    {
      hide Flatten, Linked, NoDup, EmptyFrom;
      DerefAt(g.lwd);
      if g.chains != [] { LinkedAt(g.chains, g.data, null, g.lwd); }
      chain := if Deref(lastWithData) == null then last else Deref(lastWithData);
      if chain == null {
        chain := NewChain(len, memory);
        if chain != null {
          NoChains();
          InsertChain(chain);
          CoreListed();
          assert Contents() == old(Contents()) + [];
        }
      }
    }

    lemma NoChains()
      requires Tracked() && last == null
      ensures g.chains == [] && Valid() && g.Cut() == g
    {
      g.StopsNone();
    }

    /** The chain evbuffer_add writes to, if there is one. */
    ghost function Target(): Chain?
      reads this
    {
      if g.lwd < |g.chains| then g.chains[g.lwd] else null
    }

    /** Can n bytes be added?  If the chain c has no room for them another one is needed; memory says whether a chain
        can be allocated. */
    static ghost predicate Takes(c: Chain?, n: nat, memory: bool)
      reads c
    {
      (c != null && c.Ok() && (c.SpaceLen() >= n || c.ShouldRealign(n))) || (memory && n <= CHAIN_LIMIT)
    }

    /** Append bytes; refused only when frozen, when the counter would overflow, or for want of a chain. */
    method Add(bytes: seq<byte>, memory: bool) returns (r: int)
      requires Valid()
      modifies this, g.chains
      ensures Valid() && unchanged(this`freezeStart, this`freezeEnd)
      ensures forall c :: c in g.chains && c !in old(g.chains) ==> fresh(c)
      ensures r == 0 || r == -1
      ensures r == 0 <==> !freezeEnd && old(totalLen) + |bytes| <= SIZE_MAX && old(Takes(Target(), |bytes|, memory))
      ensures Contents() == if r == 0 then old(Contents()) + bytes else old(Contents())
      ensures old(g.chains) == [] && r == 0 ==> g.data == [bytes] && |g.chains| == 1
      ensures old(g.chains) == [] && r == 0 && |bytes| + CHAIN_SIZE <= MIN_BUFFER_SIZE ==>
                g.chains[0].misalign == 0 && g.chains[0].bufferLen + CHAIN_SIZE == MIN_BUFFER_SIZE
    {
      CoreListed();
      r := AddAtCache(bytes, memory);
    }

    /** evbuffer_add on a list that may have data behind the place where the cache stops.
        A buffer in order stays in order; what was out of order is never repaired. */
    method AddAtCache(bytes: seq<byte>, memory: bool) returns (r: int)
      requires Tracked()
      modifies this, g.chains
      ensures unchanged(this`freezeStart, this`freezeEnd)
      ensures forall c :: c in g.chains && c !in old(g.chains) ==> fresh(c)
      ensures r == 0 || r == -1
      ensures r == 0 <==> !freezeEnd && old(totalLen) + |bytes| <= SIZE_MAX && old(Takes(Target(), |bytes|, memory))
      ensures if old(Valid()) then Valid() else Spoiled()
      ensures old(Valid()) ==> Contents() == if r == 0 then old(Contents()) + bytes else old(Contents())
      ensures old(g.chains) == [] && r == 0 ==> g.data == [bytes] && |g.chains| == 1
      ensures old(g.chains) == [] && r == 0 && |bytes| + CHAIN_SIZE <= MIN_BUFFER_SIZE ==>
                g.chains[0].misalign == 0 && g.chains[0].bufferLen + CHAIN_SIZE == MIN_BUFFER_SIZE
    {
      hide Flatten, Linked, NoDup, EmptyFrom, Valid, Contents;
      ValidTracked();
      if freezeEnd {
        return -1;
      }
      if |bytes| > SIZE_MAX - totalLen {
        return -1;
      }
      var chain := WritableLast(|bytes|, memory);
      ValidTracked();
      if chain == null {
        return -1;
      }
      assert chain in g.chains;
      assert [] + bytes == bytes;
      if chain.SpaceLen() >= |bytes| {
        AppendToLast(chain, bytes);
        ValidTracked();
        return 0;
      } else if chain.ShouldRealign(|bytes|) {
        AlignLast(chain);
        AppendToLast(chain, bytes);
        ValidTracked();
        return 0;
      }
      r := AddSplit(chain, bytes, memory);
    }

    /** Move the data of the chain the cache names to the start of its allocation. */
    method AlignLast(chain: Chain)
      requires Tracked() && g.chains != [] && chain == g.chains[g.lwd] && chain.Ok()
      modifies chain`misalign, chain`buffer
      ensures Tracked() && (Valid() <==> old(Valid())) && chain.Ok() && chain.misalign == 0
      ensures chain.off == old(chain.off)
    {
      hide Flatten, Linked, NoDup, EmptyFrom;
      ValidTracked();
      Focus(g.chains, g.data, null, g.lwd);
      chain.Align();
      Refocus(g.chains, g.data, null, g.lwd, g.data[g.lwd]);
      assert g.data[g.lwd := g.data[g.lwd]] == g.data;
      ValidTracked();
    }

    /** Fill up the chain the cache names and put the rest into a new one. */
    method AddSplit(chain: Chain, bytes: seq<byte>, memory: bool) returns (r: int)
      requires Tracked() && g.chains != [] && chain == g.chains[g.lwd]
      requires chain.Ok() && chain.SpaceLen() < |bytes|
      modifies this, g.chains
      ensures unchanged(this`freezeStart, this`freezeEnd)
      ensures forall c :: c in g.chains && c !in old(g.chains) ==> fresh(c)
      ensures r == 0 || r == -1
      ensures r == 0 <==> memory && |bytes| <= CHAIN_LIMIT
      ensures if old(Valid()) then Valid() else Spoiled()
      ensures old(Valid()) ==> Contents() == if r == 0 then old(Contents()) + bytes else old(Contents())
    {
      hide Flatten, Linked, NoDup, EmptyFrom, Valid, Contents, Core, LinkIn;
      ValidTracked();
      assert chain in g.chains;
      var remain := chain.SpaceLen();
      var toAlloc := chain.bufferLen;
      if toAlloc <= CHAIN_MAX_AUTO_SIZE / 2 {
        toAlloc := toAlloc * 2;
      }
      if |bytes| > toAlloc {
        toAlloc := |bytes|;
      }
      var tmp := NewChain(toAlloc, memory);
      if tmp == null {
        return -1;
      }
      if remain > 0 {
        AppendToLast(chain, bytes[..remain]);
      }
      InsertFilled(tmp, bytes[remain..]);
      if old(Valid()) {
        AddedInParts(old(Contents()), bytes, remain);
      }
      return 0;
    }

    method InsertFilled(tmp: Chain, bytes: seq<byte>)
      requires Tracked() && tmp.Ok() && tmp.next == null && tmp !in g.chains
      requires tmp.off == 0 && |bytes| <= tmp.SpaceLen()
      modifies this`first, this`last, this`lastWithData, this`g, this`totalLen, g.chains`next, tmp`off, tmp`buffer
      ensures g.chains == old(g.chains[..g.Kept()]) + [tmp]
      ensures if old(Valid()) then Valid() else Spoiled()
      ensures old(Valid()) ==> Contents() == old(Contents()) + bytes
    {
      hide Flatten, Linked, NoDup, EmptyFrom, Valid;
      ghost var was := g;
      ValidTracked();
      was.CutStops();
      tmp.Append(bytes);
      assert tmp.Data() == bytes;
      was.Cut().PushOk(tmp, bytes);
      InsertChain(tmp);
    }

    // ---------- evbuffer_prepend ----------

    /** How many bytes fit in front of the data of the first chain. */
    function FrontRoom(): nat
      reads this, if first == null then {} else {first}
    {
      if first == null then 0 else if first.off == 0 then first.bufferLen else first.misalign
    }

    lemma ValidInsert(chain: Chain)
      requires Valid() && chain.Ok() && chain !in g.chains
      ensures var h := g.Cut().Push(chain, chain.Data());
              h.Ok() && Flatten(h.data) == Contents() + chain.Data() && totalLen == |Contents()|
    {
      hide Flatten, Linked, NoDup, EmptyFrom;
      g.CutOk();
      g.Cut().PushOk(chain, chain.Data());
    }

    /** An empty first chain counts as empty at the beginning. */
    method ShiftEmptyFirst(chain: Chain)
      requires Valid() && chain == first
      modifies chain`misalign
      ensures Valid() && chain.Ok() && chain.misalign == old(FrontRoom())
      ensures chain.misalign == 0 ==> g.data[g.lwd] != []
    {
      hide Flatten, Linked, NoDup, EmptyFrom;
      Focus(g.chains, g.data, null, 0);
      if chain.off == 0 {
        chain.misalign := chain.bufferLen;
      }
      Refocus(g.chains, g.data, null, 0, g.data[0]);
      assert g.data[0 := g.data[0]] == g.data;
    }

    method PrependToFirst(chain: Chain, bytes: seq<byte>)
      requires Valid() && chain == first && chain.Ok() && |bytes| <= chain.misalign
      modifies this`totalLen, this`g, chain`off, chain`misalign, chain`buffer
      ensures Valid() && Contents() == bytes + old(Contents()) && g.chains == old(g.chains)
      ensures chain.Ok() && chain.off == old(chain.off) + |bytes|
      ensures bytes != [] ==> g.data[g.lwd] != []
    {
      hide Flatten, Linked, NoDup, EmptyFrom;
      ghost var was := g;
      ghost var d := bytes + was.data[0];
      Focus(was.chains, was.data, null, 0);
      was.RefillFirstOk(d, bytes);
      chain.Prepend(bytes);
      Refocus(was.chains, was.data, null, 0, d);
      totalLen := totalLen + |bytes|;
      g := was.RefillFirst(d);
    }

    /** Put a new chain in front of all others, its data at the end of its allocation. */
    method PrependChain(tmp: Chain, bytes: seq<byte>)
      requires Valid() && g.chains != [] && g.data[g.lwd] != [] && bytes != []
      requires tmp.Ok() && tmp !in g.chains && tmp.off == 0 && tmp.misalign == 0 && |bytes| <= tmp.bufferLen
      modifies this`first, this`lastWithData, this`totalLen, this`g, tmp
      ensures Valid() && Contents() == bytes + old(Contents()) && g.chains == [tmp] + old(g.chains)
    {
      hide Flatten, Linked, NoDup, EmptyFrom;
      ghost var was := g;
      was.ConsOk(tmp, bytes);
      var chain := first;
      first := tmp;
      if lastWithData == FirstOf(this) {
        lastWithData := NextOf(tmp);
      }
      tmp.FillAtEnd(chain, bytes);
      totalLen := totalLen + |bytes|;
      LinkedOne(tmp);
      LinkedJoin([tmp], [bytes], was.chains, was.data, null);
      g := was.Cons(tmp, bytes);
    }

    /** What of bytes is in the buffer after a prepend that returned r. */
    ghost function Prepended(bytes: seq<byte>, r: int): seq<byte>
      reads this, if first == null then {} else {first}
    {
      if r == 0 then bytes
      else if freezeStart || totalLen + |bytes| > SIZE_MAX || |bytes| < FrontRoom() then []
      else bytes[|bytes| - FrontRoom()..]
    }

    /** Is there a chain for what does not fit into the first one? */
    predicate HasChainFor(bytes: seq<byte>, memory: bool)
      reads this, if first == null then {} else {first}
    {
      (first != null && |bytes| <= FrontRoom()) || (memory && |bytes| - FrontRoom() <= CHAIN_LIMIT)
    }

    /** Put bytes in front; memory says whether a chain can be allocated, if its size is possible.  A prepend that
        fails for want of a chain has stored what fitted into the first one. */
    method Prepend(bytes: seq<byte>, memory: bool) returns (r: int)
      requires Valid()
      modifies this, g.chains
      ensures Valid() && unchanged(this`freezeStart, this`freezeEnd)
      ensures forall c :: c in g.chains && c !in old(g.chains) ==> fresh(c)
      ensures r == 0 || r == -1
      ensures r == 0 <==>
                !freezeStart && old(totalLen) + |bytes| <= SIZE_MAX && old(HasChainFor(bytes, memory))
      ensures Contents() == old(Prepended(bytes, r)) + old(Contents())
    {
      hide Flatten, Linked, NoDup, EmptyFrom;
      if freezeStart {
        return -1;
      }
      if |bytes| > SIZE_MAX - totalLen {
        return -1;
      }
      var chain := first;
      if chain == null {
        chain := NewChain(|bytes|, memory);
        if chain == null {
          return -1;
        }
        InsertChain(chain);
      }
      r := PrependFrom(chain, bytes, memory);
    }

    method PrependFrom(chain: Chain, bytes: seq<byte>, memory: bool) returns (r: int)
      requires Valid() && chain == first && g.chains != []
      modifies this, g.chains
      ensures Valid() && unchanged(this`freezeStart, this`freezeEnd)
      ensures forall c :: c in g.chains && c !in old(g.chains) ==> fresh(c)
      ensures r == if old(HasChainFor(bytes, memory)) then 0 else -1
      ensures r == 0 ==> Contents() == bytes + old(Contents())
      ensures r == -1 ==> Contents() == bytes[|bytes| - old(FrontRoom())..] + old(Contents())
    {
      hide Flatten, Linked, NoDup, EmptyFrom, Contents;
      ShiftEmptyFirst(chain);
      if chain.misalign >= |bytes| {
        PrependToFirst(chain, bytes);
        return 0;
      }
      var rest := |bytes| - chain.misalign;
      if chain.misalign > 0 {
        PrependToFirst(chain, bytes[rest..]);
      }
      assert Contents() == bytes[rest..] + old(Contents()) by {
        assert rest == |bytes| ==> bytes[rest..] + old(Contents()) == old(Contents());
      }
      var tmp := NewChain(rest, memory);
      if tmp == null {
        return -1;
      }
      PrependChain(tmp, bytes[..rest]);
      Halves(bytes, rest, old(Contents()));
      return 0;
    }

    // ---------- evbuffer_drain ----------

    /** What a walk from the front finds at the chain at index i, n bytes on. */
    lemma WalkAt(i: nat)
      requires g.Ok() && Linked(g.chains, g.data, null) && i < |g.chains|
      ensures g.chains[i].Ok() && g.chains[i].off == |g.data[i]|
    {
      hide Flatten, Linked, NoDup, EmptyFrom;
      LinkedAt(g.chains, g.data, null, i);
    }

    /** A chain that is passed as a whole, when not all bytes are, lies before the last one with data. */
    lemma WalkStep(c: Chain, i: nat, n: nat, left: nat)
      requires g.Ok() && Linked(g.chains, g.data, null) && i < |g.chains| && i <= g.lwd && c == g.chains[i]
      requires n == g.Start(i) && |g.data[i]| <= left && n + left < |Contents()|
      ensures i < g.lwd && i + 1 < |g.chains| && c.next == g.chains[i + 1]
      ensures g.Start(i + 1) == n + |g.data[i]|
      ensures c != g.chains[g.lwd] && (c == g.chains[g.lwd - 1] <==> i + 1 == g.lwd)
    {
      hide Flatten, Linked, NoDup, EmptyFrom, Layout.Start;
      g.StartStep(i);
      g.StartEnds(i + 1);
      LinkedAt(g.chains, g.data, null, i);
      DistinctAt(g.chains, i, g.lwd);
      DistinctAt(g.chains, i, g.lwd - 1);
    }

    lemma WalkStart()
      requires g.Ok() && Linked(g.chains, g.data, null) && Contents() != []
      ensures g.chains != [] && g.Start(0) == 0
      ensures g.lwd > 0 ==> g.chains[g.lwd - 1].next == g.chains[g.lwd]
    {
      hide Flatten, Linked, NoDup, EmptyFrom;
      g.StartEnds(0);
      g.StartEnds(|g.data|);
      if g.lwd > 0 { LinkedAt(g.chains, g.data, null, g.lwd - 1); }
    }

    /** Walk over the chains that are drained as a whole, resetting the cache when its chain goes. */
    method DrainWalk(len: nat) returns (chain: Chain, remaining: nat, ghost i: nat)
      requires Core() && len < |Contents()|
      modifies this`lastWithData
      ensures i < |g.chains| && i <= g.lwd && chain == g.chains[i]
      ensures len == g.Start(i) + remaining && remaining < |g.data[i]|
      ensures lastWithData == if g.lwd <= i then FirstOf(this) else LinkTo(g.lwd)
    {
      hide Flatten, Linked, NoDup, EmptyFrom, Layout.Start, Layout.Ok;
      CoreListed();
      WalkStart();
      var c := first;
      remaining := len;
      i := 0;
      WalkAt(0);
      while remaining >= c.off
        invariant g.lwd > 0 ==> g.chains[g.lwd - 1].next == g.chains[g.lwd]
        invariant i < |g.chains| && i <= g.lwd && c == g.chains[i] && |g.data[i]| == c.off
        invariant len == g.Start(i) + remaining
        invariant lastWithData == if i > 0 && g.lwd <= i then FirstOf(this) else LinkTo(g.lwd)
        decreases |g.chains| - i
      {
        WalkStep(c, i, len - remaining, remaining);
        var next := c.next;
        remaining := remaining - c.off;
        if c == Deref(lastWithData) {
          assert false;  // the last chain with data outlives a partial drain
        }
        if lastWithData == NextOf(c) {
          lastWithData := FirstOf(this);
        }
        i := i + 1;
        WalkAt(i);
        c := next;
      }
      chain := c;
    }

    /** The list now starts in the middle of the chain at index i. */
    method DropFront(chain: Chain, remaining: nat, ghost i: nat)
      requires g.Ok() && Linked(g.chains, g.data, null) && i < |g.chains| && i <= g.lwd && chain == g.chains[i]
      requires remaining < |g.data[i]| && totalLen == |Contents()| - (g.Start(i) + remaining)
      requires lastWithData == if g.lwd <= i then FirstOf(this) else LinkTo(g.lwd)
      requires last == g.chains[|g.chains| - 1]
      modifies this`first, this`g, chain`misalign, chain`off
      ensures Valid() && g == old(g.Drop(i, remaining))
      ensures Contents() == old(Contents()[g.Start(i) + remaining..])
    {
      hide Flatten, Linked, NoDup, EmptyFrom, Valid, LinkIn, Layout.Start;
      ghost var was := g;
      Focus(was.chains, was.data, null, i);
      first := chain;
      chain.Skip(remaining);
      ghost var d := was.data[i][remaining..];
      LinkedCons(chain, d, was.chains[i + 1..], was.data[i + 1..], null);
      FrontSlice(was.chains, i);
      g := was.Drop(i, remaining);
      Dropped(was, i, remaining);
    }

    lemma Dropped(was: Layout, i: nat, n: nat)
      requires was.Ok() && i < |was.chains| && i <= was.lwd && n < |was.data[i]| && g == was.Drop(i, n)
      requires first == was.chains[i] && last == was.chains[|was.chains| - 1] && Linked(g.chains, g.data, null)
      requires lastWithData == if was.lwd <= i then FirstOf(this) else LinkIn(was.chains, was.lwd)
      requires totalLen == |Flatten(was.data)| - (was.Start(i) + n)
      ensures was.Start(i) + n <= |Flatten(was.data)|
      ensures Valid() && Contents() == Flatten(was.data)[was.Start(i) + n..]
    {
      hide Flatten, Linked, NoDup, EmptyFrom;
      was.DropOk(i, n);
      assert was.lwd > i ==> was.chains[i..][was.lwd - i - 1] == was.chains[was.lwd - 1];
    }

    method ZeroChain()
      modifies this`first, this`last, this`lastWithData, this`totalLen, this`g
      ensures Valid() && g.chains == [] && Contents() == []
    {
      first := null;
      last := null;
      lastWithData := FirstOf(this);
      totalLen := 0;
      g := Layout([], [], 0);
    }

    /** Remove len bytes from the front, or everything. */
    method Drain(len: nat) returns (r: int)
      requires Valid()
      modifies this, g.chains
      ensures Valid() && unchanged(this`freezeStart, this`freezeEnd)
      ensures forall c :: c in g.chains ==> c in old(g.chains)
      ensures r == if freezeStart && old(Contents()) != [] then -1 else 0
      ensures Contents() == if r == 0 then old(Contents())[Min(len, |old(Contents())|)..] else old(Contents())
    {
      hide Flatten, Linked, NoDup, EmptyFrom;
      var oldLen := totalLen;
      if oldLen == 0 {
        return 0;
      }
      if freezeStart {
        return -1;
      }
      if len >= oldLen {
        ZeroChain();
        return 0;
      }
      var chain, remaining, i := DrainWalk(len);
      totalLen := totalLen - len;
      DropFront(chain, remaining, i);
      return 0;
    }

    // ---------- evbuffer_copyout_from, evbuffer_remove ----------

    /** p is a position in this buffer, in the chain at index i (or behind all of them). */
    ghost predicate PtrAt(p: Ptr, i: nat)
      reads this
    {
      && i <= |g.chains| == |g.data|
      && p.pos == g.Start(i) + p.posInChain
      && if i < |g.chains| then p.chain == g.chains[i] && p.posInChain <= |g.data[i]|
         else p.chain == null && p.posInChain == 0
    }

    /** The byte at p lies in the chain at index i. */
    ghost predicate PtrOn(p: Ptr, i: nat)
      reads this
    {
      PtrAt(p, i) && i < |g.chains| && p.posInChain < |g.data[i]|
    }

    ghost predicate PtrOk(p: Ptr)
      reads this
    {
      exists i :: PtrAt(p, i)
    }

    /** Copy up to len bytes from a position (or from the start) without removing them. */
    method CopyoutFrom(start: Option<Ptr>, len: nat) returns (r: int, out: seq<byte>)
      requires Valid() && (start.Some? ==> PtrOk(start.value))
      ensures var pos := if start.Some? then start.value.pos else 0;
              var n := Min(len, |Contents()| - pos);
              if start.Some? && len + pos > SSIZE_MAX then r == -1 && out == []
              else if freezeStart && n > 0 then r == -1 && out == []
              else r == n && 0 <= pos <= pos + n <= |Contents()| && out == Contents()[pos..pos + n]
    {
      hide Flatten, Linked, NoDup, EmptyFrom;
      out := [];
      var datlen := len;
      var pos, chain, posInChain := 0, first, 0;
      ghost var i: nat := 0;
      g.StartEnds(0);
      if start.Some? {
        i :| PtrAt(start.value, i);
        g.StartEnds(i);
        if i < |g.data| { g.StartStep(i); }
        pos := start.value.pos;
        if datlen > SSIZE_MAX - pos {
          return -1, [];
        }
        chain, posInChain := start.value.chain, start.value.posInChain;
      }
      if datlen + pos > totalLen {
        datlen := totalLen - pos;
      }
      if datlen == 0 {
        return 0, [];
      }
      if freezeStart {
        return -1, [];
      }
      out := CopyBytes(chain, posInChain, pos, datlen, i);
      r := datlen;
    }

    /** The chain at index i as a reader that has come to byte pos of the contents sees it. */
    ghost predicate Reading(chain: Chain?, posInChain: nat, pos: nat, i: nat)
      reads this, g.chains
    {
      && PtrAt(Ptr(pos, chain, posInChain), i) && pos <= |Contents()|
      && (i < |g.chains| ==>
            && chain.Holds(g.data[i], After(g.chains, i, null))
            && g.Start(i) + |g.data[i]| <= |Contents()|
            && Contents()[g.Start(i)..g.Start(i) + |g.data[i]|] == g.data[i])
      && (i >= |g.chains| ==> pos == |Contents()|)
    }

    lemma StartReading(p: Ptr, i: nat)
      requires Core() && PtrAt(p, i)
      ensures p.pos >= 0 && Reading(p.chain, p.posInChain, p.pos, i)
    {
      hide Flatten, Linked, NoDup, EmptyFrom;
      g.StartEnds(i);
      if i < |g.chains| { LinkedAt(g.chains, g.data, null, i); g.StartStep(i); }
    }

    /** What is at a position that is being read. */
    lemma ReadingAt(chain: Chain?, posInChain: nat, pos: nat, i: nat)
      requires Reading(chain, posInChain, pos, i)
      ensures i <= |g.chains| == |g.data| && (chain == null <==> i == |g.chains|) &&
              (chain == null ==> pos == |Contents()|)
      ensures chain != null ==> chain.Ok() && chain.off == |g.data[i]| && posInChain <= chain.off
      ensures chain != null && posInChain < chain.off ==>
                pos < |Contents()| && chain.Data()[posInChain] == Contents()[pos] &&
                    Reading(chain, posInChain + 1, pos + 1, i)
    {
      hide Flatten, Layout.Start;
      if chain != null && posInChain < chain.off {
        SegmentByte(Contents(), g.Start(i), chain.Data(), posInChain);
      }
    }

    lemma NextReading(chain: Chain, posInChain: nat, pos: nat, i: nat)
      requires Core() && Reading(chain, posInChain, pos, i) && i < |g.chains|
      ensures Reading(chain.next, 0, pos + |g.data[i]| - posInChain, i + 1)
    {
      hide Flatten, Linked, NoDup, EmptyFrom;
      g.StartStep(i);
      StartReading(Ptr(g.Start(i + 1), chain.next, 0), i + 1);
    }

    method CopyBytes(from: Chain?, fromPos: nat, ghost pos: nat, len: nat, ghost k: nat) returns (out: seq<byte>)
      requires Valid() && PtrAt(Ptr(pos, from, fromPos), k) && 0 < len <= |Contents()| - pos
      ensures out == Contents()[pos..pos + len]
    {
      hide Flatten, Linked, NoDup, EmptyFrom, Layout.Start, Layout.Ok;
      var chain: Chain?, posInChain: nat, datlen: nat := from, fromPos, len;
      ghost var i, s := k, Contents();
      out := [];
      StartReading(Ptr(pos, from, fromPos), k);
      while datlen > 0 && datlen >= chain.off - posInChain
        invariant Reading(chain, posInChain, pos + |out|, i)
        invariant |out| + datlen == len && out == s[pos..pos + |out|]
        decreases |g.chains| - i
      {
        var copylen := chain.off - posInChain;
        CopyStep(s, pos, out, g.Start(i), g.data[i], posInChain, copylen);
        NextReading(chain, posInChain, pos + |out|, i);
        out := out + chain.Data()[posInChain..posInChain + copylen];
        datlen := datlen - copylen;
        chain := chain.next;
        posInChain := 0;
        i := i + 1;
      }
      if datlen > 0 {
        CopyStep(s, pos, out, g.Start(i), g.data[i], posInChain, datlen);
        out := out + chain.Data()[posInChain..posInChain + datlen];
      }
    }

    /** Reads data from the front and drains the bytes read. */
    method Remove(len: nat) returns (n: int, out: seq<byte>)
      requires Valid()
      modifies this, g.chains
      ensures Valid() && unchanged(this`freezeStart, this`freezeEnd)
      ensures forall c :: c in g.chains ==> c in old(g.chains)
      ensures old(Contents()) == out + Contents()
      ensures if freezeStart && len > 0 && old(Contents()) != [] then n == -1 && out == []
              else n == |out| == Min(len, |old(Contents())|)
    {
      hide Valid, Contents;
      n, out := CopyoutFrom(None, len);
      if n > 0 {
        var d := Drain(n);
        if d < 0 {
          n := -1;
        }
      }
    }

    // ---------- evbuffer_add_buffer, evbuffer_prepend_buffer ----------

    /** Both buffers are in order and share no chain. */
    ghost predicate Separate(o: EvBuffer)
      reads this, g.chains, o, o.g.chains
    {
      this != o && Valid() && o.Valid() && g.Apart(o.g)
    }

    /** COPY_CHAIN: take over the list of src as it is. */
    method CopyChain(src: EvBuffer)
      requires src.Valid() && this != src
      modifies this`first, this`last, this`lastWithData, this`totalLen, this`g
      ensures Valid() && g == src.g
    {
      hide Flatten, Linked, NoDup, EmptyFrom;
      first := src.first;
      if src.lastWithData == FirstOf(src) {
        lastWithData := FirstOf(this);
      } else {
        lastWithData := src.lastWithData;
      }
      last := src.last;
      totalLen := src.totalLen;
      g := src.g;
    }

    /** Link the whole list of src in behind the last chain. */
    method Splice(chp: Link, src: EvBuffer)
      requires Core() && src.Valid() && this != src && g.Apart(src.g)
      requires chp == LinkTo(|g.chains|) && src.Contents() != []
      modifies this`first, this`last, this`lastWithData, this`totalLen, this`g, g.chains`next
      ensures Valid() && g == old(g.Join(src.g)) && Contents() == old(Contents()) + src.Contents()
    {
      hide Flatten, Linked, NoDup, EmptyFrom, Valid, Layout.Ok, LinkIn, Disjoint;
      CoreListed();
      src.InOrder();
      src.g.LastData();
      ghost var was, sg := g, src.g;
      DisjointBoth(was.chains, sg.chains);
      LinkBehind(chp, src.first, sg.chains, sg.data, null);
      LinksJoined(src, was.chains, sg.chains, sg.lwd);
      if src.lastWithData == FirstOf(src) {
        lastWithData := chp;
      } else {
        lastWithData := src.lastWithData;
      }
      last := src.last;
      totalLen := totalLen + src.totalLen;
      g := was.Join(sg);
      Joined(was, sg);
    }

    /** A list made of two is in order. */
    lemma Joined(a: Layout, b: Layout)
      requires a.Ok() && b.Ok() && a.Apart(b) && b.chains != [] && b.data[b.lwd] != []
      requires g == a.Join(b) && Linked(a.chains + b.chains, a.data + b.data, null)
      requires first == (a.chains + b.chains)[0] && last == b.chains[|b.chains| - 1]
      requires lastWithData == LinkIn(a.chains + b.chains, |a.chains| + b.lwd)
      requires totalLen == |Flatten(a.data)| + |Flatten(b.data)|
      ensures Valid() && Contents() == Flatten(a.data) + Flatten(b.data)
    {
      hide Flatten, Linked, NoDup, EmptyFrom;
      a.JoinOk(b);
    }

    /** Move everything from inbuf to the end of this buffer. */
    method AddBuffer(inbuf: EvBuffer) returns (r: int)
      requires Valid() && (this != inbuf ==> Separate(inbuf))
      modifies this, g.chains, inbuf, inbuf.g.chains
      ensures Valid() && (this != inbuf ==> Separate(inbuf))
      ensures unchanged(this`freezeStart, this`freezeEnd, inbuf`freezeStart, inbuf`freezeEnd)
      ensures forall c :: c in g.chains ==> c in old(g.chains) || c in old(inbuf.g.chains)
      ensures forall c :: c in inbuf.g.chains ==> c in old(inbuf.g.chains)
      ensures r == if this != inbuf && old(inbuf.Contents()) != [] && (freezeEnd || inbuf.freezeStart) then -1 else 0
      ensures if r == 0 && this != inbuf
              then Contents() == old(Contents() + inbuf.Contents()) && inbuf.Contents() == []
              else Contents() == old(Contents()) && inbuf.Contents() == old(inbuf.Contents())
      ensures r == 0 && this != inbuf && old(inbuf.Contents()) != [] ==>
                g == old(if Contents() == [] then inbuf.g else g.Cut().Join(inbuf.g))
    {
      hide Flatten, Linked, NoDup, EmptyFrom;
      if inbuf.totalLen == 0 || this == inbuf {
        return 0;
      }
      if freezeEnd || inbuf.freezeStart {
        return -1;
      }
      if totalLen == 0 {
        CopyChain(inbuf);
      } else {
        AppendChain(inbuf);
      }
      inbuf.ZeroChain();
      return 0;
    }

    /** APPEND_CHAIN */
    method AppendChain(inbuf: EvBuffer)
      requires Separate(inbuf) && inbuf.Contents() != []
      modifies this`first, this`last, this`lastWithData, this`totalLen, this`g, g.chains`next
      ensures Valid() && Contents() == old(Contents()) + inbuf.Contents()
      ensures g == old(g.Cut().Join(inbuf.g))
    {
      hide Flatten, Linked, NoDup, EmptyFrom;
      CoreListed();
      var chp := FreeTrailingEmpty();
      assert forall i :: 0 <= i < |inbuf.g.chains| ==> inbuf.g.chains[i] !in old(g.chains);
      Splice(chp, inbuf);
    }

    /** PREPEND_CHAIN: link the whole list of src in front of this one. */
    method PrependAll(src: EvBuffer)
      requires Separate(src) && Contents() != [] && src.Contents() != []
      modifies this`first, this`lastWithData, this`totalLen, this`g, src.g.chains`next
      ensures Valid() && Contents() == src.Contents() + old(Contents()) && src.g == old(src.g)
      ensures g == old(src.g.Join(g))
    {
      hide Flatten, Linked, NoDup, EmptyFrom, Valid, Layout.Ok, Disjoint, LinkIn;
      InOrder();
      src.InOrder();
      ghost var was, sg := g, src.g;
      was.LastData();
      sg.LastData();
      DisjointBoth(was.chains, sg.chains);
      LinkFront(src.last, first, sg, was);
      FrontCache(src, sg.chains, was.chains, was.lwd);
      g := sg.Join(was);
      Joined(sg, was);
    }

    /** The fields of the buffer that now begins with the list of src. */
    method FrontCache(src: EvBuffer, ghost front: seq<Chain>, ghost cs: seq<Chain>, ghost k: nat)
      requires this != src && front != [] && k < |cs|
      requires lastWithData == LinkIn(cs, k) && first == cs[0] && src.first == front[0] &&
               src.last == front[|front| - 1]
      requires k > 0 ==> cs[k - 1].next == cs[k]
      modifies this`first, this`lastWithData, this`totalLen
      ensures first == front[0] && totalLen == old(totalLen) + src.totalLen
      ensures lastWithData == LinkIn(front + cs, |front| + k)
    {
      LinksJoined(src, front, cs, k);
      first := src.first;
      totalLen := totalLen + src.totalLen;
      if Deref(lastWithData) == null {
        assert false;  // this buffer is not empty
      } else if lastWithData == FirstOf(this) {
        lastWithData := NextOf(src.last);
      }
    }

    /** Behind the last chain of one list comes the first one of another. */
    static method LinkFront(last: Chain, to: Chain?, ghost a: Layout, ghost b: Layout)
      requires a.Ok() && b.Ok() && a.Apart(b) && a.chains != [] && last == a.chains[|a.chains| - 1] &&
               to == Head(b.chains, null)
      requires Linked(a.chains, a.data, null) && Linked(b.chains, b.data, null)
      modifies a.chains`next
      ensures Linked(a.chains + b.chains, a.data + b.data, null)
      ensures b.lwd > 0 ==> b.chains[b.lwd - 1].next == b.chains[b.lwd]
    {
      hide Flatten, Linked, NoDup, EmptyFrom;
      assert last in a.chains && last !in b.chains;
      Relink(last, to, a.chains, a.data, null, |a.chains| - 1);
      assert a.chains[..|a.chains|] == a.chains && a.data[..|a.chains|] == a.data;
      LinkedJoin(a.chains, a.data, b.chains, b.data, null);
      if b.lwd > 0 { LinkedAt(b.chains, b.data, null, b.lwd - 1); }
    }

    /** Move everything from inbuf to the front of this buffer. */
    method PrependBuffer(inbuf: EvBuffer) returns (r: int)
      requires Valid() && (this != inbuf ==> Separate(inbuf))
      modifies this, g.chains, inbuf, inbuf.g.chains
      ensures Valid() && (this != inbuf ==> Separate(inbuf))
      ensures unchanged(this`freezeStart, this`freezeEnd, inbuf`freezeStart, inbuf`freezeEnd)
      ensures forall c :: c in g.chains ==> c in old(g.chains) || c in old(inbuf.g.chains)
      ensures forall c :: c in inbuf.g.chains ==> c in old(inbuf.g.chains)
      ensures r == if this != inbuf && old(inbuf.Contents()) != [] && (freezeStart || inbuf.freezeStart) then -1 else 0
      ensures if r == 0 && this != inbuf
              then Contents() == old(inbuf.Contents() + Contents()) && inbuf.Contents() == []
              else Contents() == old(Contents()) && inbuf.Contents() == old(inbuf.Contents())
      ensures r == 0 && this != inbuf && old(inbuf.Contents()) != [] ==>
                g == old(if Contents() == [] then inbuf.g else inbuf.g.Join(g))
    {
      hide Flatten, Linked, NoDup, EmptyFrom;
      if inbuf.totalLen == 0 || this == inbuf {
        return 0;
      }
      if freezeStart || inbuf.freezeStart {
        return -1;
      }
      if totalLen == 0 {
        CopyChain(inbuf);
      } else {
        PrependAll(inbuf);
      }
      inbuf.ZeroChain();
      return 0;
    }

    // ---------- evbuffer_remove_buffer ----------

    lemma AdvanceAt(k: nat)
      requires Linked(g.chains, g.data, null) && k < |g.chains|
      ensures |g.data| == |g.chains|
      ensures var next := g.chains[k].next;
              if next != null && next.off != 0
              then k + 1 < |g.chains| && next == g.chains[k + 1] && Advance(g.data, k) == Advance(g.data, k + 1)
              else Advance(g.data, k) == k
    {
      LinkedAt(g.chains, g.data, null, k);
      if k + 1 < |g.chains| { LinkedAt(g.chains, g.data, null, k + 1); }
    }

    /** Move the cache on while the next chain has data. */
    method AdvanceLastWithData()
      requires Base()
      modifies this`lastWithData, this`g
      ensures Base() && g.chains == old(g.chains) && g.data == old(g.data)
      ensures old(g.lwd) < |g.data| && g.lwd == Advance(g.data, old(g.lwd))
    {
      hide Flatten, Linked, NoDup, EmptyFrom, Advance, Chain.Data;
      ghost var k: nat := g.lwd;
      if k > 0 { LinkedAt(g.chains, g.data, null, k - 1); }
      if Deref(lastWithData) == null {
        assert false;
      }
      AdvanceAt(k);
      while Deref(lastWithData).next != null && Deref(lastWithData).next.off != 0
        invariant k < |g.chains| && lastWithData == LinkTo(k) && Deref(lastWithData) == g.chains[k]
        invariant Linked(g.chains, g.data, null) && Advance(g.data, k) == Advance(g.data, g.lwd)
        decreases |g.chains| - k
        modifies this`lastWithData
      {
        AdvanceAt(k);
        lastWithData := NextOf(Deref(lastWithData));
        k := k + 1;
      }
      AdvanceAt(k);
      g := g.(lwd := k);
    }

    /** Count the chains that are moved as a whole, resetting the cache when its chain goes. */
    method SkipWhole(len: nat) returns (chain: Chain, previous: Chain, nread: nat, left: nat, ghost i: nat)
      requires Valid() && len < |Contents()|
      modifies this`lastWithData
      ensures Skipped(chain, previous, nread, left, i) && i == Whole(g.data, len) && len == nread + left
    {
      hide Flatten, Linked, NoDup, EmptyFrom, Whole, Layout.Start, Layout.Ok;
      CoreListed();
      WalkStart();
      var c := first;
      previous := first;
      nread, left, i := 0, len, 0;
      WalkAt(0);
      assert g.data[0..] == g.data;
      while c.off <= left
        invariant g.lwd > 0 ==> g.chains[g.lwd - 1].next == g.chains[g.lwd]
        invariant i < |g.chains| && i <= g.lwd && c == g.chains[i] && |g.data[i]| == c.off
        invariant nread == g.Start(i) && len == nread + left
        invariant i > 0 ==> previous == g.chains[i - 1]
        invariant lastWithData == if i > 0 && g.lwd <= i then FirstOf(this) else LinkTo(g.lwd)
        invariant Whole(g.data, len) == i + Whole(g.data[i..], left)
        decreases |g.chains| - i
      {
        WalkStep(c, i, nread, left);
        assert c != Deref(lastWithData);  // we do not run into the last chain with data
        WholeStep(g.data, i, left);
        nread := nread + c.off;
        left := left - c.off;
        previous := c;
        if lastWithData == NextOf(c) {
          lastWithData := FirstOf(this);
        }
        c := c.next;
        i := i + 1;
        WalkAt(i);
      }
      WholeStep(g.data, i, left);
      chain := c;
    }

    /** Link the chains b, a cut-off piece of another list, in behind this buffer. */
    method Graft(to: Chain, previous: Chain, ghost b: seq<Chain>, ghost db: seq<seq<byte>>, ghost end: Chain?)
      requires Valid() && Linked(b, db, end) && |db| == |b| && NoDup(b) && b != []
      requires to == b[0] && previous == b[|b| - 1] && Disjoint(b, g.chains)
      modifies this`first, this`last, this`g, g.chains`next, previous`next
      ensures Base() && Contents() == old(Contents()) + Flatten(db)
      ensures var h := old(g.Cut()); g == Layout(h.chains + b, h.data + db, h.lwd)
    {
      hide Flatten, Linked, NoDup, EmptyFrom, Valid, Disjoint, LinkIn;
      ValidCore();
      CoreListed();
      g.CutApart(b);
      var chp := FreeTrailingEmpty();
      ghost var h := g;
      DisjointAt(b, old(g.chains));
      LinkBehind(chp, to, b, db, end);
      last := previous;
      EndWith(previous, h, b, db, end);
      FlattenConcat(h.data, db);
      LinksBefore(h.chains, b, h.lwd);
      g := Layout(h.chains + b, h.data + db, h.lwd);
    }

    lemma LinksBefore(a: seq<Chain>, b: seq<Chain>, k: nat)
      requires k <= |a| && b != []
      ensures LinkIn(a + b, k) == LinkIn(a, k) && Head(a + b, null) == (a + b)[0] && (a + b)[|a + b| - 1] == b[|b| - 1]
    {
    }

    /** Cut a joined list off behind the chain previous. */
    static method EndWith(previous: Chain, ghost h: Layout, ghost b: seq<Chain>, ghost db: seq<seq<byte>>,
        ghost end: Chain?)
      requires h.Ok() && |db| == |b| && Linked(h.chains + b, h.data + db, end) && NoDup(b) && b != []
      requires previous == b[|b| - 1] && Disjoint(b, h.chains)
      modifies previous`next
      ensures Linked(h.chains + b, h.data + db, null) && NoDup(h.chains + b)
    {
      hide Flatten, Linked, NoDup, EmptyFrom;
      ghost var all, segs := h.chains + b, h.data + db;
      DistinctJoin(h.chains, b);
      Relink(previous, null, all, segs, end, |all| - 1);
      assert all[..|all|] == all && segs[..|segs|] == segs;
    }

    /** All but the cache and the byte count, which is too large by `over`. */
    ghost predicate Remains(over: int)
      reads this, g.chains
    {
      && g.Ok() && g.chains != []
      && first == Head(g.chains, null)
      && Linked(g.chains, g.data, null)
      && last == g.chains[|g.chains| - 1]
      && totalLen == |Flatten(g.data)| + over
    }

    /** All but the byte count, which is too large by `over`. */
    ghost predicate Overcounted(over: int)
      reads this, g.chains
    {
      Remains(over) && lastWithData == LinkTo(g.lwd)
    }

    /** The list starts at the chain at index i; the bytes before it are still counted. */
    method DetachFront(chain: Chain, ghost i: nat, ghost nread: nat)
      requires g.Ok() && i < |g.chains| && i <= g.lwd && nread == g.Start(i) && chain == g.chains[i]
      requires Linked(g.chains[i..], g.data[i..], null) && g.data[i] != []
      requires lastWithData == if g.lwd <= i then FirstOf(this) else LinkTo(g.lwd)
      requires last == g.chains[|g.chains| - 1] && totalLen == |Contents()|
      modifies this`first, this`g
      ensures Overcounted(nread) && g.chains == old(g.chains)[i..] && g.data == old(g.data)[i..]
      ensures nread <= |old(Contents())| && Contents() == old(Contents())[nread..]
    {
      hide Flatten, Linked, NoDup, EmptyFrom;
      g.DropOk(i, 0);
      first := chain;
      assert [g.data[i][0..]] + g.data[i + 1..] == g.data[i..];
      g := g.Drop(i, 0);
    }

    /** Where advancing from the link at index k has led. */
    lemma Arrived(k: nat)
      requires Base() && k < |g.data| && g.lwd == Advance(g.data, k) && (k > 0 ==> g.data[k] != [])
      requires totalLen == |Contents()|
      ensures Tracked() && (Valid() <==> NoGap(g.data, k))
    {
      hide Flatten, Linked, NoDup, EmptyFrom, NoGap, Advance, Valid;
      g.AdvancedTo(k);
      ValidTracked();
    }

    /** Take over the chains b; the result is in order exactly when they leave no gap. */
    method TakeOver(to: Chain, previous: Chain, nread: nat,
                    ghost b: seq<Chain>, ghost db: seq<seq<byte>>, ghost end: Chain?,
                    ghost rest: seq<Chain>, ghost drest: seq<seq<byte>>)
      requires Valid() && Linked(b, db, end) && |db| == |b| && NoDup(b) && b != [] && nread == |Flatten(db)|
      requires to == b[0] && previous == b[|b| - 1] && Disjoint(b, g.chains)
      requires Linked(rest, drest, null) && Disjoint(rest, g.chains) && Disjoint(rest, b)
      modifies this`first, this`last, this`lastWithData, this`g, this`totalLen, g.chains`next, previous`next
      ensures forall c :: c in g.chains ==> c in old(g.chains) || c in b
      ensures Tracked() && (Valid() <==> NoGap(old(g.Cut().data) + db, old(g.Cut().lwd)))
      ensures Contents() == old(Contents()) + Flatten(db)
      ensures old(g.Cut().lwd) < |old(g.Cut().data) + db|
      ensures Target() == (old(g.Cut().chains) + b)[Advance(old(g.Cut().data) + db, old(g.Cut().lwd))]
      ensures Linked(rest, drest, null)
    {
      hide Flatten, Linked, NoDup, EmptyFrom, NoGap, Advance, Valid, Tracked;
      ValidCore();
      ghost var h, cs := g.Cut(), g.chains;
      OldPart(b);
      assert old(Valid()) && previous in b;
      Graft(to, previous, b, db, end);
      assert Linked(rest, drest, null) by {
        assert forall i :: 0 <= i < |rest| ==> rest[i] !in cs && rest[i] != previous;
      }
      AdvanceLastWithData();
      totalLen := totalLen + nread;
      Arrived(h.lwd);
    }

    lemma OldPart(b: seq<Chain>)
      requires Valid()
      ensures var h := g.Cut();
              h.Ok() && (forall c :: c in h.chains + b ==> c in g.chains || c in b) && totalLen == |Contents()|
      ensures var h := g.Cut(); h.chains == [] ==> h.lwd == 0
    {
      g.CutOk();
    }

    /** Of len bytes to move, nread are those of the first i chains, which go as a whole; the cache was reset when
        its chain was among them. */
    ghost predicate Skipped(chain: Chain, previous: Chain, nread: nat, left: nat, i: nat)
      reads this, g.chains
    {
      && g.Ok() && Linked(g.chains, g.data, null)
      && i < |g.chains| && i <= g.lwd && left < |g.data[i]|
      && chain == g.chains[i] && (i > 0 ==> previous == g.chains[i - 1]) && nread == g.Start(i)
      && first == g.chains[0] && last == g.chains[|g.chains| - 1]
      && lastWithData == (if g.lwd <= i then FirstOf(this) else LinkTo(g.lwd))
      && totalLen == |Contents()|
    }

    /** The first i chains of src can go without leaving a gap. */
    ghost predicate Gapless(src: Layout, i: nat)
      requires g.Sized() && i <= |src.data|
      reads this
    {
      NoGap(g.Cut().data + src.data[..i], g.Cut().lwd)
    }

    lemma SkippedAt(chain: Chain, previous: Chain, nread: nat, left: nat, i: nat)
      requires Skipped(chain, previous, nread, left, i)
      ensures g.Sized() && g.Ok() && i < |g.data| == |g.chains| && chain in g.chains
      ensures i > 0 ==> previous in g.chains
      ensures nread == g.Start(i) && i <= g.lwd
    {
    }

    /** Where the cache stops once the first i chains of src were appended. */
    ghost function JoinedTarget(src: Layout, i: nat): Chain?
      requires g.Sized() && i <= |src.chains| == |src.data|
      reads this
    {
      var h := g.Cut();
      if h.lwd < |h.data| + i then (h.chains + src.chains[..i])[Advance(h.data + src.data[..i], h.lwd)] else null
    }

    /** The chain that what is left of a partial move will be added to. */
    ghost function LaterTarget(src: Layout, len: nat): Chain?
      requires g.Sized() && |src.chains| == |src.data|
      reads this
    {
      var i := Whole(src.data, len);
      if src.Start(i) > 0 then JoinedTarget(src, i) else Target()
    }

    /** Can what is left of a partial move be added? */
    ghost predicate Kept(src: Layout, len: nat, memory: bool)
      requires g.Sized() && |src.chains| == |src.data|
      reads this, LaterTarget(src, len)
    {
      var whole := src.Start(Whole(src.data, len));
      len >= |Flatten(src.data)| || len < whole || Takes(LaterTarget(src, len), len - whole, memory)
    }

    /** Move the first i chains of src, nread bytes, over to this buffer. */
    method TakeFront(src: EvBuffer, chain: Chain, previous: Chain, nread: nat, ghost left: nat, ghost i: nat)
      requires Valid() && this != src && g.Apart(src.g) && src.Skipped(chain, previous, nread, left, i) && i > 0
      modifies this`first, this`last, this`lastWithData, this`g, this`totalLen, g.chains`next
      modifies src`first, src`g, previous`next
      ensures forall c :: c in g.chains ==> c in old(g.chains) || c in old(src.g.chains)
      ensures Tracked() && (Valid() <==> old(Gapless(src.g, i)))
      ensures Passed(old(Contents()), old(src.Contents()), Contents(), src.Contents(), nread)
      ensures Target() == old(JoinedTarget(src.g, i))
      ensures src.Overcounted(nread) && g.Apart(src.g)
      ensures src.g.chains == old(src.g.chains)[i..] && src.g.data == old(src.g.data)[i..]
    {
      hide Flatten, Linked, NoDup, EmptyFrom, NoGap, Valid, Tracked, Gapless, JoinedTarget, Skipped, Advance;
      hide Layout.Ok, Layout.Cut, Disjoint;
      Sizes();
      FrontParts(src, chain, previous, nread, left, i);
      GaplessIs(src.g, i);
      JoinedIs(src.g, i);
      ghost var was, cs, ds := g.chains, src.g.chains, src.g.data;
      TakeOver(src.first, previous, nread, cs[..i], ds[..i], chain, cs[i..], ds[i..]);
      src.DetachFront(chain, i, nread);
      StillApart(g.chains, was, cs, i);
    }

    static lemma StillApart(now: seq<Chain>, was: seq<Chain>, cs: seq<Chain>, i: nat)
      requires i <= |cs| && Disjoint(was, cs) && Disjoint(cs[i..], cs[..i])
      requires forall c :: c in now ==> c in was || c in cs[..i]
      ensures Disjoint(now, cs[i..]) && forall c :: c in now ==> c in was || c in cs
    {
      assert forall c :: c in cs[i..] ==> c in cs;
    }

    /** What is known of the chains that go and of those that stay. */
    lemma FrontParts(src: EvBuffer, chain: Chain, previous: Chain, nread: nat, left: nat, i: nat)
      requires Valid() && this != src && g.Apart(src.g) && src.Skipped(chain, previous, nread, left, i) && i > 0
      ensures var cs, ds := src.g.chains, src.g.data;
              && i < |cs| == |ds| && src.g.Ok() && i <= src.g.lwd && chain == cs[i] && ds[i] != []
              && Linked(cs[..i], ds[..i], chain) && NoDup(cs[..i]) && Disjoint(cs[..i], g.chains)
              && Linked(cs[i..], ds[i..], null) && Disjoint(cs[i..], g.chains) && Disjoint(cs[i..], cs[..i])
              && src.first == cs[..i][0] && previous == cs[..i][i - 1] && previous in cs[..i] && previous in cs
              && nread == |Flatten(ds[..i])| == src.g.Start(i) <= |src.Contents()|
              && Flatten(ds[..i]) == src.Contents()[..nread]
              && src.last == cs[|cs| - 1] && src.totalLen == |src.Contents()|
              && src.lastWithData == (if src.g.lwd <= i then FirstOf(src) else src.LinkTo(src.g.lwd))
    {
      hide Flatten, Linked, NoDup, EmptyFrom, Valid;
      LinkedCut(src.g.chains, src.g.data, null, i);
      DistinctCut(src.g.chains, i);
      FlattenCut(src.g.data, i);
      assert src.g.chains[..i][i - 1] == previous;
    }

    /** Drop what was read from the chain that stays, and correct the byte count.  The cache may still
        name an empty first chain. */
    method FinishRemove(chain: Chain, left: nat, nread: nat, ghost k: nat)
      requires left <= nread && LeftOver(chain, left, k, nread - left)
      modifies chain`misalign, chain`off, this`totalLen, this`g
      ensures g.chains == old(g.chains) && left <= |old(Contents())| && Contents() == old(Contents())[left..]
      ensures if old(CacheLeft(k)) then Spoiled() else Valid()
    {
      hide Flatten, Linked, NoDup, EmptyFrom;
      ghost var wrong := CacheLeft(k);
      g.TrimOk(k, left);
      Focus(g.chains, g.data, null, k);
      chain.Skip(left);
      Refocus(g.chains, g.data, null, k, g.data[k][left..]);
      totalLen := totalLen - nread;
      g := g.Trim(k, left);
      if wrong {
        DataBehind(k);
        g := g.(lwd := 0);
      }
    }

    lemma DataBehind(k: nat)
      requires 0 < k < |g.data| && g.data[k] != []
      ensures !EmptyFrom(g.data, 1)
    {
    }

    /** Move up to len bytes from the front of src to the end of this buffer, whole chains where possible.
        Both buffers are in order afterwards exactly when the chains were movable.  What is left behind the whole
        chains is lost exactly when there is no room for it and no memory. */
    method RemoveBuffer(src: EvBuffer, len: nat, memory: bool) returns (n: int)
      requires Valid() && (this != src ==> Separate(src) && |Contents()| + |src.Contents()| <= SIZE_MAX)
      modifies this, g.chains, src, src.g.chains
      ensures unchanged(this`freezeStart, this`freezeEnd, src`freezeStart, src`freezeEnd)
      ensures forall c :: c in g.chains ==> c in old(g.chains) || c in old(src.g.chains) || fresh(c)
      ensures forall c :: c in src.g.chains ==> c in old(src.g.chains)
      ensures this != src ==> g.Apart(src.g)
      ensures Valid() && src.Valid() <==>
              this == src || len == 0 || freezeEnd || src.freezeStart || old(Movable(src.g, g, len))
      ensures !(Valid() && src.Valid()) ==> Spoiled() || src.Spoiled()
      ensures if this == src || len == 0 then n == 0
              else if freezeEnd || src.freezeStart then n == -1
              else n == Min(len, |old(src.Contents())|)
      ensures Valid() && src.Valid() ==>
                if n <= 0 then Contents() == old(Contents()) && src.Contents() == old(src.Contents())
                else if old(Kept(src.g, len, memory)) then
                  Passed(old(Contents()), old(src.Contents()), Contents(), src.Contents(), n)
                else Lost(old(Contents()), old(src.Contents()), Contents(), src.Contents(),
                          old(src.g.Start(Whole(src.g.data, len))), n)
    {
      hide Flatten, Linked, NoDup, EmptyFrom, Movable, Passed;
      if len == 0 || this == src {
        return 0;
      }
      if freezeEnd || src.freezeStart {
        return -1;
      }
      if len >= src.totalLen {
        AllMovable(src.g, g, len);
        PassedAll(Contents(), src.Contents());
        n := src.totalLen;
        var r := AddBuffer(src);
        return n;
      }
      RemovePart(src, len, memory);
      n := len;
    }

    method RemovePart(src: EvBuffer, len: nat, memory: bool)
      requires Separate(src) && |Contents()| + |src.Contents()| <= SIZE_MAX
      requires 0 < len < |src.Contents()| && !freezeEnd
      modifies this, g.chains, src, src.g.chains
      ensures unchanged(this`freezeStart, this`freezeEnd, src`freezeStart, src`freezeEnd)
      ensures forall c :: c in g.chains ==> c in old(g.chains) || c in old(src.g.chains) || fresh(c)
      ensures forall c :: c in src.g.chains ==> c in old(src.g.chains)
      ensures g.Apart(src.g)
      ensures if old(Movable(src.g, g, len)) then Valid() && src.Valid() else Spoiled() || src.Spoiled()
      ensures Valid() && src.Valid() <==> old(Movable(src.g, g, len))
      ensures Valid() && old(Kept(src.g, len, memory)) ==>
                Passed(old(Contents()), old(src.Contents()), Contents(), src.Contents(), len)
      ensures Valid() && !old(Kept(src.g, len, memory)) ==>
                Lost(old(Contents()), old(src.Contents()), Contents(), src.Contents(),
                     old(src.g.Start(Whole(src.g.data, len))), len)
    {
      hide Flatten, Linked, NoDup, EmptyFrom, Movable, Valid, Tracked, Spoiled, Passed, LeftOver, CacheLeft;
      var chain, left, nread;
      ghost var k;
      chain, left, nread, k := TakeWhole(src, len);
      ghost var a, b := Contents(), src.Contents();
      PassedSizes(old(Contents()), old(src.Contents()), a, b, nread);
      src.LeftOverAt(chain, left, k, nread);
      assert forall j :: 0 <= j < |g.chains| ==>
               g.chains[j] in g.chains && (g.chains[j] in old(g.chains) || g.chains[j] in old(src.g.chains));
      MoveRest(src, chain, left, nread + left, k, memory);
      ValidTracked();
      src.ValidTracked();
      PassedTwice(old(Contents()), old(src.Contents()), a, b, nread, left);
      PassedLost(old(Contents()), old(src.Contents()), a, b, nread, left);
    }

    /** Move the chains that go as a whole. */
    method TakeWhole(src: EvBuffer, len: nat) returns (chain: Chain, left: nat, nread: nat, ghost k: nat)
      requires Separate(src) && 0 < len < |src.Contents()|
      modifies this`first, this`last, this`lastWithData, this`g, this`totalLen, g.chains`next
      modifies src`first, src`lastWithData, src`g, src.g.chains`next
      ensures Tracked() && src.LeftOver(chain, left, k, nread) && len == nread + left
      ensures Valid() && !src.CacheLeft(k) <==> old(Movable(src.g, g, len))
      ensures Target() == old(LaterTarget(src.g, len)) && nread == old(src.g.Start(Whole(src.g.data, len)))
      ensures g.Apart(src.g)
      ensures forall c :: c in g.chains ==> c in old(g.chains) || c in old(src.g.chains)
      ensures forall c :: c in src.g.chains ==> c in old(src.g.chains)
      ensures Passed(old(Contents()), old(src.Contents()), Contents(), src.Contents(), nread)
    {
      hide Flatten, Linked, NoDup, EmptyFrom, Movable, Valid, Tracked, Passed, Skipped, Gapless, LeftOver, CacheLeft;
      ValidCore();
      src.ValidCore();
      PartMovable(src.g, g, len);
      var previous;
      ghost var i;
      chain, previous, nread, left, i := src.SkipWhole(len);
      src.SkippedAt(chain, previous, nread, left, i);
      GaplessIs(src.g, i);
      k := TakeAny(src, chain, previous, nread, left, i);
    }

    lemma JoinedIs(src: Layout, i: nat)
      requires g.Sized() && i <= |src.chains| == |src.data|
      ensures g.Cut().lwd < |g.Cut().data + src.data[..i]| ==>
                JoinedTarget(src, i) ==
                (g.Cut().chains + src.chains[..i])[Advance(g.Cut().data + src.data[..i], g.Cut().lwd)]
    {
    }

    lemma GaplessIs(src: Layout, i: nat)
      requires g.Sized() && i <= |src.data|
      ensures Gapless(src, i) <==> NoGap(g.Cut().data + src.data[..i], g.Cut().lwd)
    {
    }

    /** The cache of the source still names an empty first chain, behind which all its data lies. */
    ghost predicate CacheLeft(k: nat)
      reads this
    {
      lastWithData == FirstOf(this) && k == g.lwd && k > 0
    }

    /** What is left of a buffer whose first chains went: all data begins in the chain at index k. */
    ghost predicate LeftOver(chain: Chain, left: nat, k: nat, over: int)
      reads this, g.chains
    {
      && Remains(over) && k < |g.chains| && k <= g.lwd && g.Start(k) == 0
      && chain == g.chains[k] && left < |g.data[k]|
      && (lastWithData == LinkTo(g.lwd) || CacheLeft(k))
    }

    lemma LeftOverAt(chain: Chain, left: nat, k: nat, over: int)
      requires LeftOver(chain, left, k, over)
      ensures chain in g.chains && left <= |Contents()|
    {
      hide Flatten, Linked, NoDup, EmptyFrom;
      FrontBytes(chain, left, k);
    }

    /** Move the skipped chains if they hold anything.  Both caches are right afterwards exactly when the
        moved chains have no gap and the only data does not start behind skipped empty chains. */
    method TakeAny(src: EvBuffer, chain: Chain, previous: Chain, nread: nat, left: nat, ghost i: nat)
        returns (ghost k: nat)
      requires Valid() && this != src && g.Apart(src.g) && src.Skipped(chain, previous, nread, left, i)
      modifies this`first, this`last, this`lastWithData, this`g, this`totalLen, g.chains`next
      modifies src`first, src`g, src.g.chains`next
      ensures Tracked() && src.LeftOver(chain, left, k, nread)
      ensures Valid() <==> (nread > 0 ==> old(Gapless(src.g, i)))
      ensures src.CacheLeft(k) <==> nread == 0 && i > 0 && i == old(src.g.lwd)
      ensures Target() == if nread > 0 then old(JoinedTarget(src.g, i)) else old(Target())
      ensures g.Apart(src.g)
      ensures forall c :: c in g.chains ==> c in old(g.chains) || c in old(src.g.chains)
      ensures forall c :: c in src.g.chains ==> c in old(src.g.chains)
      ensures Passed(old(Contents()), old(src.Contents()), Contents(), src.Contents(), nread)
    {
      hide Flatten, Linked, NoDup, EmptyFrom, Tracked, Valid, Passed, Gapless;
      src.g.StartEnds(0);
      src.g.StartEnds(i);
      ValidTracked();
      ValidCore();
      k := i;
      if nread > 0 {
        assert previous in src.g.chains;
        TakeFront(src, chain, previous, nread, left, i);
        k := 0;
        src.g.StartEnds(0);
      } else {
        PassedNothing(Contents(), src.Contents());
      }
    }

    /** Copy left bytes of the chain that stays, then drop them. */
    method MoveRest(src: EvBuffer, chain: Chain, left: nat, nread: nat, ghost k: nat, memory: bool)
      requires Tracked() && this != src && g.Apart(src.g)
      requires left <= nread && src.LeftOver(chain, left, k, nread - left)
      requires |Contents()| + left <= SIZE_MAX && !freezeEnd
      modifies this, g.chains, src`totalLen, src`g, chain`misalign, chain`off
      ensures g.Apart(src.g) && src.g.chains == old(src.g.chains)
      ensures unchanged(this`freezeStart, this`freezeEnd)
      ensures forall c :: c in g.chains ==> c in old(g.chains) || fresh(c)
      ensures left <= |old(src.Contents())|
      ensures if old(Valid()) then Valid() else Spoiled()
      ensures if old(src.CacheLeft(k)) then src.Spoiled() else src.Valid()
      ensures old(Valid()) ==>
                Contents() == if old(Takes(Target(), left, memory)) then old(Contents()) + old(src.Contents())[..left]
                              else old(Contents())
      ensures src.Contents() == old(src.Contents())[left..]
    {
      hide Flatten, Linked, NoDup, EmptyFrom, Valid, Spoiled, Listed;
      src.FrontBytes(chain, left, k);
      assert forall i :: 0 <= i < |src.g.chains| ==> src.g.chains[i] !in old(g.chains);
      var r := AddAtCache(chain.buffer[chain.misalign..chain.misalign + left], memory);
      assert src.LeftOver(chain, left, k, nread - left);
      assert forall i :: 0 <= i < |g.chains| ==> g.chains[i] !in src.g.chains by {
        assert forall i :: 0 <= i < |g.chains| ==> g.chains[i] in g.chains;
      }
      src.FinishRemove(chain, left, nread, k);
    }

    /** The first bytes of the chain where all data begins. */
    lemma FrontBytes(chain: Chain, left: nat, k: nat)
      requires g.Ok() && Linked(g.chains, g.data, null) && k < |g.chains|
      requires g.Start(k) == 0 && chain == g.chains[k] && left < |g.data[k]|
      ensures chain.Ok() && left <= chain.off <= CHAIN_LIMIT && left <= |Contents()|
      ensures chain.buffer[chain.misalign..chain.misalign + left] == Contents()[..left]
    {
      hide Flatten, Linked, NoDup, EmptyFrom, Layout.Start;
      g.StartStep(k);
      LinkedAt(g.chains, g.data, null, k);
      assert Contents()[..left] == Contents()[0..g.Start(k + 1)][..left];
      assert chain.buffer[chain.misalign..chain.misalign + left] == chain.Data()[..left];
    }

    // ---------- evbuffer_pullup ----------

    /** Which chain the cache names, and through which chain. */
    lemma CacheOn(j: nat)
      requires g.Ok() && lastWithData == LinkTo(g.lwd) && 0 < g.lwd && j < |g.chains|
      ensures g.chains[j] == g.chains[g.lwd] <==> j == g.lwd
      ensures NextOf(g.chains[j]) == lastWithData <==> j == g.lwd - 1
    {
      DistinctAt(g.chains, j, g.lwd);
      DistinctAt(g.chains, j, g.lwd - 1);
    }

    /** What was copied so far: the first k bytes of the contents. */
    ghost predicate BeginsWith(tmp: Chain, k: nat)
      reads this, tmp
    {
      && k <= |Contents()| && tmp.misalign + k <= |tmp.buffer| == tmp.bufferLen
      && tmp.buffer[tmp.misalign..tmp.misalign + k] == Contents()[..k]
    }

    /** Copy every chain that goes into tmp as a whole, from the j0-th on; tmp already holds what comes before. */
    method PullWhole(tmp: Chain, from: Chain?, n: nat, done0: nat, ghost j0: nat)
        returns (chain: Chain?, done: nat, removedLwd: bool, removedLwdp: bool, ghost j: nat)
      requires g.Ok() && lastWithData == LinkTo(g.lwd) && 0 < g.lwd && n <= |Contents()|
      requires j0 <= g.lwd && Linked(g.chains[j0..], g.data[j0..], null) && tmp !in g.chains[j0..]
      requires from == g.chains[j0] && done0 == g.Start(j0) <= n
      requires tmp.misalign + n <= |tmp.buffer| == tmp.bufferLen <= CHAIN_LIMIT && tmp.off == n
      requires BeginsWith(tmp, done0)
      requires Deref(lastWithData) == g.chains[g.lwd]
      modifies tmp`buffer
      ensures j0 <= j <= |g.chains| && chain == if j < |g.chains| then g.chains[j] else null
      ensures Linked(g.chains[j..], g.data[j..], null) && tmp !in g.chains[j..]
      ensures done == g.Start(j) <= n && if j < |g.data| then n - done < |g.data[j]| else n == done
      ensures BeginsWith(tmp, done) && |tmp.buffer| == tmp.bufferLen
      ensures removedLwd <==> g.lwd < j
      ensures removedLwdp <==> j0 <= g.lwd - 1 < j
    {
      hide Flatten, Linked, NoDup, EmptyFrom, Layout.Start, Chain.Data, BeginsWith;
      var lwdChain := Deref(lastWithData);
      chain, done, removedLwd, removedLwdp, j := from, done0, false, false, j0;
      LinkedCut(g.chains[j0..], g.data[j0..], null, 0);
      while chain != null && n - done >= chain.off
        invariant j0 <= j <= |g.chains| && chain == if j < |g.chains| then g.chains[j] else null
        invariant Linked(g.chains[j..], g.data[j..], null) && tmp !in g.chains[j..]
        invariant done == g.Start(j) <= n
        invariant BeginsWith(tmp, done) && |tmp.buffer| == tmp.bufferLen
        invariant removedLwd <==> g.lwd < j
        invariant removedLwdp <==> j0 <= g.lwd - 1 < j
        decreases |g.chains| - j
      {
        CacheOn(j);
        var next := PullOne(tmp, chain, n, done, j);
        done := done + chain.off;
        if chain == lwdChain {
          removedLwd := true;
        }
        if NextOf(chain) == lastWithData {
          removedLwdp := true;
        }
        chain := next;
        j := j + 1;
      }
      if j < |g.chains| { PullStep(j); } else { g.StartEnds(j); }
    }

    /** Copy one chain as a whole; the next one is returned. */
    method PullOne(tmp: Chain, chain: Chain, n: nat, done: nat, ghost j: nat) returns (next: Chain?)
      requires g.Ok() && j < |g.chains| && chain == g.chains[j] && n <= |Contents()|
      requires Linked(g.chains[j..], g.data[j..], null) && tmp !in g.chains[j..]
      requires done == g.Start(j) && done + chain.off <= n && tmp.misalign + n <= |tmp.buffer| == tmp.bufferLen
      requires BeginsWith(tmp, done)
      modifies tmp`buffer
      ensures chain.off == |g.data[j]| && done + chain.off == g.Start(j + 1)
      ensures next == if j + 1 < |g.chains| then g.chains[j + 1] else null
      ensures Linked(g.chains[j + 1..], g.data[j + 1..], null) && tmp !in g.chains[j + 1..]
      ensures BeginsWith(tmp, done + chain.off) && |tmp.buffer| == tmp.bufferLen
    {
      hide Flatten, Linked, NoDup, EmptyFrom, Layout.Start;
      PullStep(j);
      assert forall c :: c in g.chains[j + 1..] ==> c in g.chains[j..] by {
        assert g.chains[j + 1..] == g.chains[j..][1..];
      }
      next := chain.next;
      tmp.CopyBehind(done, chain.Data());
    }

    lemma PullStep(j: nat)
      requires g.Ok() && j < |g.chains| && Linked(g.chains[j..], g.data[j..], null)
      ensures g.chains[j].Holds(g.data[j], After(g.chains, j, null))
      ensures Linked(g.chains[j + 1..], g.data[j + 1..], null)
      ensures g.Start(j + 1) == g.Start(j) + |g.data[j]| <= |Contents()|
      ensures Contents()[..g.Start(j + 1)] == Contents()[..g.Start(j)] + g.data[j]
      ensures g.chains[j] in g.chains[j..]
    {
      hide Flatten, Linked, NoDup, EmptyFrom;
      LinkedAt(g.chains[j..], g.data[j..], null, 0);
      LinkedCut(g.chains[j..], g.data[j..], null, 1);
      g.StartStep(j);
      assert g.chains[j..][1..] == g.chains[j + 1..] && g.data[j..][1..] == g.data[j + 1..];
      var a, b := g.Start(j), g.Start(j + 1);
      assert Contents()[..b] == Contents()[..a] + Contents()[a..b];
    }

    /** Copy the first bytes of the chain that stays and put tmp in front of it. */
    method PullPart(tmp: Chain, chain: Chain?, n: nat, done: nat, ghost j: nat)
      requires |g.data| == |g.chains| && NoDup(g.chains)
      requires j <= |g.chains| && chain == if j < |g.chains| then g.chains[j] else null
      requires Linked(g.chains[j..], g.data[j..], null) && tmp !in g.chains[j..]
      requires done == g.Start(j) <= n <= |Contents()| && if j < |g.data| then n - done < |g.data[j]| else n == done
      requires tmp.off == n && tmp.misalign + n <= |tmp.buffer| == tmp.bufferLen <= CHAIN_LIMIT && 0 < tmp.bufferLen
      requires BeginsWith(tmp, done)
      modifies this`last, tmp`buffer, tmp`next, if chain == null then {} else {chain}
      ensures tmp.Holds(Contents()[..n], Head(g.chains[j..], null))
      ensures Linked(g.chains[j..], g.Rest(j, n - done), null)
      ensures last == if j < |g.chains| then old(last) else tmp
    {
      hide Flatten, Linked, NoDup, EmptyFrom, Layout.Start, Layout.Rest;
      if chain != null {
        PullFirst(tmp, chain, n, done, j);
      } else {
        last := tmp;
        LinkedNone(null);
        NothingLeft(j, n - done);
      }
      tmp.next := chain;
    }

    lemma NothingLeft(j: nat, m: nat)
      requires j == |g.chains| == |g.data|
      ensures g.chains[j..] == [] && g.Rest(j, m) == []
    {
    }

    /** Copy the first bytes of the chain that stays and drop them there. */
    method PullFirst(tmp: Chain, chain: Chain, n: nat, done: nat, ghost j: nat)
      requires |g.data| == |g.chains| && NoDup(g.chains) && j < |g.chains| && chain == g.chains[j]
      requires Linked(g.chains[j..], g.data[j..], null) && tmp !in g.chains[j..]
      requires done == g.Start(j) <= n <= |Contents()| && n - done < |g.data[j]|
      requires tmp.misalign + n <= |tmp.buffer| == tmp.bufferLen
      requires BeginsWith(tmp, done)
      modifies tmp`buffer, chain`misalign, chain`off
      ensures BeginsWith(tmp, n)
      ensures Linked(g.chains[j..], g.Rest(j, n - done), null)
    {
      hide Flatten, Linked, NoDup, EmptyFrom, Layout.Start;
      var m := n - done;
      ghost var cs, ds := g.chains[j..], g.data[j..];
      g.StartStepAny(j);
      DistinctCut(g.chains, j);
      Focus(cs, ds, null, 0);
      assert cs[0] in cs && tmp != chain;
      tmp.CopyBehind(done, chain.Data()[..m]);
      assert Contents()[..n] == Contents()[..done] + g.data[j][..m];
      chain.Skip(m);
      Refocus(cs, ds, null, 0, ds[0][m..]);
      assert ds[0 := ds[0][m..]] == g.Rest(j, m);
    }

    /** Put lastWithData right after the chains up to index j went into tmp. */
    method FixCache(removedLwd: bool, removedLwdp: bool)
      modifies this`lastWithData
      requires first != null
      ensures lastWithData == if removedLwd then FirstOf(this)
                              else if !removedLwdp then old(lastWithData)
                              else if first.next != null && first.next.off != 0 then NextOf(first) else FirstOf(this)
    {
      if removedLwd {
        lastWithData := FirstOf(this);
      } else if removedLwdp {
        if first.next != null && first.next.off != 0 {
          lastWithData := NextOf(first);
        } else {
          lastWithData := FirstOf(this);
        }
      }
    }

    /** Copy what is missing of the first n bytes into tmp, and cut the rest of the list to what is left. */
    method PullBytes(tmp: Chain, from: Chain, n: nat, done0: nat, ghost j0: nat)
        returns (removedLwd: bool, removedLwdp: bool, ghost j: nat)
      requires g.Ok() && lastWithData == LinkTo(g.lwd) && 0 < g.lwd && n <= |Contents()|
      requires j0 <= g.lwd && Linked(g.chains[j0..], g.data[j0..], null) && tmp !in g.chains[j0..]
      requires from == g.chains[j0] && done0 == g.Start(j0) <= n
      requires tmp.misalign + n <= |tmp.buffer| == tmp.bufferLen <= CHAIN_LIMIT && tmp.off == n && 0 < tmp.bufferLen
      requires BeginsWith(tmp, done0)
      requires Deref(lastWithData) == g.chains[g.lwd]
      modifies this`last, tmp`buffer, tmp`next, g.chains[j0..]
      ensures j0 <= j <= |g.chains| && tmp !in g.chains[j..]
      ensures g.Start(j) <= n && if j < |g.data| then n - g.Start(j) < |g.data[j]| else n == g.Start(j)
      ensures tmp.Holds(Contents()[..n], Head(g.chains[j..], null))
      ensures Linked(g.chains[j..], g.Rest(j, n - g.Start(j)), null)
      ensures last == if j < |g.chains| then old(last) else tmp
      ensures removedLwd <==> g.lwd < j
      ensures removedLwdp <==> j0 <= g.lwd - 1 < j
    {
      hide Flatten, Linked, NoDup, EmptyFrom, Layout.Start, Layout.Rest, BeginsWith, Contents;
      var chain, done;
      chain, done, removedLwd, removedLwdp, j := PullWhole(tmp, from, n, done0, j0);
      assert chain != null ==> chain in g.chains[j0..] by {
        assert j < |g.chains| ==> g.chains[j0..][j - j0] == g.chains[j];
      }
      PullPart(tmp, chain, n, done, j);
    }

    /** Pull the first n bytes into tmp, which already is first and holds the first done0 of them. */
    method PullInto(tmp: Chain, from: Chain, n: nat, done0: nat, ghost j0: nat) returns (ghost j: nat)
      requires g.Ok() && lastWithData == LinkTo(g.lwd) && 0 < g.lwd && 0 < n <= |Contents()| == totalLen
      requires j0 <= 1 && Linked(g.chains[j0..], g.data[j0..], null) && tmp !in g.chains[j0..]
      requires j0 == 1 ==> tmp == g.chains[0] && tmp.next == from
      requires from == g.chains[j0] && done0 == g.Start(j0) <= n && g.Start(1) < n
      requires tmp.misalign + n <= |tmp.buffer| == tmp.bufferLen <= CHAIN_LIMIT && tmp.off == n && 0 < tmp.bufferLen
      requires BeginsWith(tmp, done0)
      requires first == tmp && last == g.chains[|g.chains| - 1]
      modifies this`last, this`lastWithData, this`g, tmp`buffer, tmp`next, g.chains[j0..]
      ensures Valid() && Contents() == old(Contents())
      ensures j <= |old(g.chains)| && g.chains == [tmp] + old(g.chains)[j..] && g.data[0] == Contents()[..n]
    {
      hide Flatten, Linked, NoDup, EmptyFrom, Layout.Start, Layout.Rest;
      if g.lwd > j0 {
        LinkedAt(g.chains[j0..], g.data[j0..], null, g.lwd - 1 - j0);
        assert After(g.chains[j0..], g.lwd - 1 - j0, null) == g.chains[g.lwd];
      }
      var removedLwd, removedLwdp;
      removedLwd, removedLwdp, j := PullBytes(tmp, from, n, done0, j0);
      FinishPull(tmp, n, removedLwd, removedLwdp, j0, j);
    }

    lemma NextAfterPull(j: nat, n: nat)
      requires |g.data| == |g.chains| && j < |g.chains| && g.Start(j) <= n && n - g.Start(j) <= |g.data[j]|
      requires Linked(g.chains[j..], g.Rest(j, n - g.Start(j)), null)
      ensures g.chains[j].off == |g.data[j]| - (n - g.Start(j))
    {
      hide Linked, Layout.Start;
      LinkedAt(g.chains[j..], g.Rest(j, n - g.Start(j)), null, 0);
    }

    /** The repaired cache names the link to the last chain with data of the pulled-up list. */
    lemma CacheFixed(tmp: Chain, n: nat, removedLwd: bool, removedLwdp: bool, j0: nat, j: nat)
      requires g.Ok() && 0 < g.lwd && j0 <= j <= |g.chains| && j0 <= 1
      requires g.Start(j) <= n <= |Contents()| && 0 < n
      requires if j < |g.data| then n - g.Start(j) < |g.data[j]| else n == g.Start(j)
      requires j0 == 1 ==> tmp == g.chains[0]
      requires tmp.next == Head(g.chains[j..], null)
      requires j < |g.chains| ==> g.chains[j].off == |g.data[j]| - (n - g.Start(j))
      requires removedLwd <==> g.lwd < j
      requires removedLwdp <==> j0 <= g.lwd - 1 < j
      ensures var p := g.Pulled(tmp, j, n);
              && p.lwd <= |p.chains|
              && (if p.lwd == 0 then FirstOf(this) else NextOf(p.chains[p.lwd - 1])) ==
                 if removedLwd then FirstOf(this)
                 else if !removedLwdp then LinkTo(g.lwd)
                 else if tmp.next != null && tmp.next.off != 0 then NextOf(tmp) else FirstOf(this)
    {
      hide Flatten, Linked, NoDup, EmptyFrom, Layout.Start, Layout.Rest;
      g.PulledCache(tmp, j, n);
    }

    /** tmp now holds the first n bytes and is followed by what is left: set the cache. */
    method FinishPull(tmp: Chain, n: nat, removedLwd: bool, removedLwdp: bool, ghost j0: nat, ghost j: nat)
      requires g.Ok() && lastWithData == LinkTo(g.lwd) && 0 < g.lwd && j0 <= j <= |g.chains| && j0 <= 1
      requires g.Start(j) <= n <= |Contents()| == totalLen && g.Start(1) < n
      requires if j < |g.data| then n - g.Start(j) < |g.data[j]| else n == g.Start(j)
      requires tmp !in g.chains[j..] && (j0 == 1 ==> tmp == g.chains[0])
      requires tmp.Holds(Contents()[..n], Head(g.chains[j..], null))
      requires Linked(g.chains[j..], g.Rest(j, n - g.Start(j)), null)
      requires removedLwd <==> g.lwd < j
      requires removedLwdp <==> j0 <= g.lwd - 1 < j
      requires first == tmp && last == if j < |g.chains| then g.chains[|g.chains| - 1] else tmp
      modifies this`lastWithData, this`g
      ensures Valid() && Contents() == old(Contents())
      ensures g.chains == [tmp] + old(g.chains)[j..] && g.data[0] == Contents()[..n]
    {
      hide Flatten, Linked, NoDup, EmptyFrom, Layout.Start, Layout.Rest, Valid;
      ghost var was := g;
      was.PulledOk(tmp, j, n);
      was.PulledCache(tmp, j, n);
      PulledList(tmp, n, j);
      if j < |was.chains| { NextAfterPull(j, n); }
      CacheFixed(tmp, n, removedLwd, removedLwdp, j0, j);
      FixCache(removedLwd, removedLwdp);
      g := was.Pulled(tmp, j, n);
      Together();
    }

    /** The list that begins with tmp. */
    lemma PulledList(tmp: Chain, n: nat, j: nat)
      requires |g.data| == |g.chains| && j <= |g.data| && g.Start(j) <= n <= |Contents()|
      requires j < |g.data| ==> n - g.Start(j) <= |g.data[j]|
      requires tmp.Holds(Contents()[..n], Head(g.chains[j..], null))
      requires Linked(g.chains[j..], g.Rest(j, n - g.Start(j)), null)
      ensures var q := g.Pulled(tmp, j, n);
              Linked(q.chains, q.data, null) && q.chains != [] && Head(q.chains, null) == tmp
    {
      hide Flatten, Linked, NoDup, EmptyFrom, Layout.Start, Layout.Rest;
      LinkedOne(tmp);
      LinkedJoin([tmp], [Contents()[..n]], g.chains[j..], g.Rest(j, n - g.Start(j)), null);
    }

    /** The first chain has room for n bytes behind its misalignment: pull into it. */
    method PullIntoFirst(chain: Chain, n: nat)
      requires Valid() && chain == first && chain.Ok() && chain.off < n <= |Contents()| &&
               n <= chain.bufferLen - chain.misalign
      modifies this`last, this`lastWithData, this`g, g.chains
      ensures Valid() && Contents() == old(Contents()) && g.data[0] == Contents()[..n] && g.chains[0] == chain
      ensures forall c :: c in g.chains ==> c in old(g.chains)
    {
      hide Flatten, Linked, NoDup, EmptyFrom, Layout.Rest;
      ghost var cs, ds := g.chains, g.data;
      FirstHolds(n);
      Focus(cs, ds, null, 0);
      g.StartStepAny(0);
      g.StartEnds(0);
      assert Contents()[..g.Start(1)] == ds[0];
      assert forall c :: c in cs[1..] ==> c in cs;
      var oldOff := chain.off;
      chain.off := n;
      assert chain.buffer[chain.misalign..chain.misalign + oldOff] == old(chain.Data());
      ghost var j := PullInto(chain, chain.next, n, oldOff, 1);
    }

    /** The first chain is too small: pull into a new one. */
    method PullIntoNew(chain: Chain, tmp: Chain, n: nat)
      requires Valid() && chain == first && chain.Ok() && chain.off < n <= |Contents()|
      requires tmp.Ok() && tmp !in g.chains && tmp.misalign == 0 && tmp.off == 0 && n <= tmp.bufferLen
      modifies this`first, this`last, this`lastWithData, this`g, g.chains, tmp
      ensures Valid() && Contents() == old(Contents()) && g.data[0] == Contents()[..n] && g.chains[0] == tmp
      ensures forall c :: c in g.chains ==> c == tmp || c in old(g.chains)
    {
      hide Flatten, Linked, NoDup, EmptyFrom, Layout.Rest;
      FirstHolds(n);
      g.StartEnds(0);
      assert g.chains[0..] == g.chains && g.data[0..] == g.data;
      tmp.off := n;
      first := tmp;
      ghost var j := PullInto(tmp, chain, n, 0, 0);
    }

    /** When more bytes are asked for than the first chain has, it is not the last one with data. */
    lemma FirstHolds(n: nat)
      requires Valid() && first != null && first.off < n <= |Contents()|
      ensures g.chains != [] && first.off == |g.data[0]| == g.Start(1) && 0 < g.lwd
    {
      hide Flatten, Linked, NoDup, EmptyFrom;
      LinkedAt(g.chains, g.data, null, 0);
      g.StartEnds(0);
      g.StartStep(0);
      g.StartEnds(1);
    }

    /** Does the first chain hold n bytes, or could it? */
    predicate Reaches(n: nat)
      reads this, if first == null then {} else {first}
    {
      first != null && (first.off >= n || first.bufferLen - first.misalign >= n)
    }

    /** Make the first size bytes (all of them if size is negative) contiguous; returns the chain they are in. */
    method Pullup(size: int, memory: bool) returns (r: Chain?)
      requires Valid()
      modifies this, g.chains
      ensures Valid() && Contents() == old(Contents()) && unchanged(this`freezeStart, this`freezeEnd)
      ensures forall c :: c in g.chains && c !in old(g.chains) ==> fresh(c)
      ensures var n := if size < 0 then |Contents()| else size;
              && (r == null <==> n == 0 || n > |Contents()| || !(old(Reaches(n)) || (memory && n <= CHAIN_LIMIT)))
              && (r != null ==> r == first && r.Ok() && n <= r.off && r.Data()[..n] == Contents()[..n])
    {
      hide Flatten, Linked, NoDup, EmptyFrom;
      var chain := first;
      var n := if size < 0 then totalLen else size;
      if n == 0 || n > totalLen {
        return null;
      }
      g.StartEnds(0);
      g.StartEnds(|g.data|);
      LinkedAt(g.chains, g.data, null, 0);
      if chain.off >= n {
        g.StartStepAny(0);
        return chain;
      }
      if chain.bufferLen - chain.misalign >= n {
        PullIntoFirst(chain, n);
        r := chain;
      } else {
        var tmp := NewChain(n, memory);
        if tmp == null {
          return null;
        }
        PullIntoNew(chain, tmp, n);
        r := tmp;
      }
      LinkedAt(g.chains, g.data, null, 0);
    }

    // ---------- evbuffer_reserve_space, evbuffer_commit_space ----------

    /** The index of the first chain with space behind its data. */
    ghost function Usable(): nat
      requires g.chains != [] && g.lwd < |g.chains| && g.chains[g.lwd].Ok()
      reads this, g.chains
    {
      if g.chains[g.lwd].SpaceLen() == 0 then g.lwd + 1 else g.lwd
    }

    /** These are the spaces behind the data of consecutive chains, from index f on. */
    ghost predicate SpacesAt(f: nat, spaces: seq<nat>)
      reads this, g.chains
    {
      f + |spaces| <= |g.chains| &&
      forall i :: f <= i < f + |spaces| ==> g.chains[i].Ok() && g.chains[i].SpaceLen() == spaces[i - f]
    }

    /** The first chains with space offer, no more than n of them, at least want bytes. */
    ghost predicate Offers(spaces: seq<nat>, n: nat, want: nat)
      reads this, g.chains
    {
      && Valid() && g.chains != [] && g.chains[g.lwd].Ok()
      && SpacesAt(Usable(), spaces) && |spaces| <= n && Sum(spaces) >= want
    }

    /** Count the space in the last chain with data and the empty ones behind it, which are realigned. */
    method CountSpace(want: nat, n: nat)
        returns (chain: Chain?, avail: nat, used: nat, ghost spaces: seq<nat>, ghost k: nat)
      requires Valid() && g.chains != [] && n >= 2
      modifies g.chains`misalign
      ensures Valid() && g.lwd <= k <= |g.chains| && chain == if k < |g.chains| then g.chains[k] else null
      ensures g.chains[g.lwd].Ok() && used == |spaces| <= n && avail == Sum(spaces) && SpacesAt(Usable(), spaces)
      ensures avail >= want || used == n || (k == |g.chains| && |g.chains| == Usable() + used)
      ensures forall c :: c in g.chains ==> c.misalign <= old(c.misalign)
    {
      hide Flatten, Linked, NoDup, EmptyFrom, Sum, Valid, SpacesAt, Layout.Ok;
      SumNone();
      LwdChain();
      chain := Deref(lastWithData);
      avail, used, spaces, k := 0, 0, [], g.lwd;
      while chain != null
        invariant Valid() && g.lwd <= k <= |g.chains| && chain == if k < |g.chains| then g.chains[k] else null
        invariant used == |spaces| < n && avail == Sum(spaces) && (k > g.lwd ==> avail < want)
        invariant forall c :: c in g.chains ==> c.misalign <= old(c.misalign)
        invariant k == g.lwd ==> spaces == []
        invariant g.lwd < |g.chains| && g.chains[g.lwd].Ok()
        invariant k > g.lwd ==> SpacesAt(Usable(), spaces) && k == Usable() + used
        decreases |g.chains| - k
      {
        ghost var f := if k == g.lwd then k else Usable();
        NoSpaces(k);
        var space, counted := CountOne(chain, k, f, spaces);
        NoSpaces(k + 1);
        if counted {
          SumSnoc(spaces, space);
          avail, used, spaces := avail + space, used + 1, spaces + [space];
        }
        k := k + 1;
        chain := chain.next;
        if avail >= want || used == n {
          break;
        }
      }
    }

    lemma LwdChain()
      requires Valid() && g.chains != []
      ensures g.lwd < |g.chains| && Deref(lastWithData) == g.chains[g.lwd] && g.chains[g.lwd].Ok()
    {
      hide Flatten, Linked, NoDup, EmptyFrom;
      DerefAt(g.lwd);
      LinkedAt(g.chains, g.data, null, g.lwd);
    }

    lemma NoSpaces(f: nat)
      ensures f <= |g.chains| ==> SpacesAt(f, [])
    {
    }

    /** The space of one chain; an empty one is realigned first, a full one is not counted. */
    method CountOne(chain: Chain, ghost k: nat, ghost f: nat, ghost spaces: seq<nat>)
        returns (space: nat, counted: bool)
      requires Valid() && g.lwd <= k < |g.chains| && chain == g.chains[k]
      requires SpacesAt(f, spaces) && k == f + |spaces| && g.chains[g.lwd].Ok()
      modifies chain`misalign
      ensures Valid() && chain.Ok() && g.chains[g.lwd].Ok() && chain.next == After(g.chains, k, null)
      ensures chain.misalign <= old(chain.misalign)
      ensures chain.SpaceLen() == space && SpacesAt(f, spaces)
      ensures if counted then SpacesAt(f, spaces + [space]) && 0 < space else k == g.lwd && space == 0
      ensures k > g.lwd ==> g.chains[g.lwd].SpaceLen() == old(g.chains[g.lwd].SpaceLen())
    {
      hide Flatten, Linked, NoDup, EmptyFrom;
      LinkedAt(g.chains, g.data, null, k);
      EmptyAt(k);
      OthersThan(k);
      if chain.off > 0 {
        space := chain.SpaceLen();
        counted := space > 0;
      } else {
        Realign(chain, k);
        space := chain.bufferLen;
        counted := true;
      }
    }

    lemma OthersThan(k: nat)
      requires g.Ok() && k < |g.chains|
      ensures forall i :: 0 <= i < |g.chains| && i != k ==> g.chains[i] != g.chains[k]
    {
    }

    /** No data in the chain at index k: it can be realigned by moving nothing. */
    method Realign(chain: Chain, ghost k: nat)
      requires Valid() && k < |g.chains| && chain == g.chains[k] && chain.off == 0
      modifies chain`misalign
      ensures Valid() && chain.Ok() && chain.misalign == 0 && chain.next == old(chain.next)
      ensures chain.SpaceLen() == chain.bufferLen
    {
      hide Flatten, Linked, NoDup, EmptyFrom;
      Focus(g.chains, g.data, null, k);
      chain.misalign := 0;
      Refocus(g.chains, g.data, null, k, g.data[k]);
      assert g.data[k := g.data[k]] == g.data;
    }

    lemma EmptyAt(k: nat)
      requires g.Ok() && g.lwd <= k < |g.chains|
      ensures g.lwd < k ==> g.data[k] == []
    {
    }

    /** Link an empty chain in behind the last one. */
    method AppendEmpty(tmp: Chain)
      requires Valid() && g.chains != [] && tmp.Ok() && tmp.next == null && tmp.off == 0 && tmp !in g.chains
      modifies this`first, this`last, this`g, g.chains`next
      ensures Valid() && Contents() == old(Contents()) && g == old(g.Push(tmp, []))
    {
      hide Flatten, Linked, NoDup, EmptyFrom;
      ghost var was := g;
      was.PushOk(tmp, []);
      CoreListed();
      LinkedOne(tmp);
      LinkBehind(NextOf(last), tmp, [tmp], [[]], null);
      last := tmp;
      g := was.Push(tmp, []);
    }

    /** Free all chains behind the last one with data, that one too if nothing is stored. */
    method CutEmpties()
      requires Valid() && g.chains != []
      modifies this`first, this`last, this`lastWithData, this`totalLen, this`g, g.chains`next
      ensures Valid() && Contents() == old(Contents()) && g == old(g.Cut())
    {
      hide Flatten, Linked, NoDup, EmptyFrom;
      g.CutOk();
      DerefAt(g.lwd);
      LinkedAt(g.chains, g.data, null, g.lwd);
      var lwdChain := Deref(lastWithData);
      if lwdChain.off == 0 {
        ZeroChain();
      } else {
        ghost var was := g;
        EndAt(lwdChain, was);
        last := lwdChain;
        g := was.Cut();
      }
    }

    /** The only chain is an empty one. */
    method SetOnly(tmp: Chain)
      requires Valid() && g.chains == [] && tmp.Ok() && tmp.next == null && tmp.off == 0
      modifies this`first, this`last, this`lastWithData, this`g
      ensures Valid() && Contents() == old(Contents()) && g == Layout([tmp], [[]], 0)
    {
      hide Flatten, Linked, NoDup, EmptyFrom;
      g.PushOk(tmp, []);
      LinkedOne(tmp);
      assert g.chains + [tmp] == [tmp] && g.data + [[]] == [[]];
      first := tmp;
      last := tmp;
      lastWithData := FirstOf(this);
      g := g.Push(tmp, []);
    }

    /** Not enough space in n chains: replace all empty chains by one that is large enough. */
    method ReplaceEmpties(want: nat, n: nat, memory: bool) returns (r: int, ghost spaces: seq<nat>)
      requires Valid() && g.chains != [] && n >= 2 && g.chains[g.lwd].Ok()
      requires g.chains[g.lwd].off > 0 ==> g.chains[g.lwd].SpaceLen() <= want
      modifies this, g.chains`next
      ensures Valid() && Contents() == old(Contents()) && unchanged(this`freezeStart, this`freezeEnd)
      ensures forall c :: c in g.chains ==> c in old(g.chains) || (fresh(c) && c.bufferLen <= RoundedUp(want))
      ensures r == 0 || r == -1
      ensures memory && want <= CHAIN_LIMIT ==> r == 0
      ensures r == 0 ==> Offers(spaces, n, want)
      ensures g.Regrown(old(g))
    {
      hide Flatten, Linked, NoDup, EmptyFrom, Valid, Layout.Ok, Layout.Sized, Contents, Offers, Layout.Regrown;
      spaces := [];
      Sizes();
      var rmvAll, avail := CutToData();
      ghost var h := g;
      Sizes();
      var tmp := NewChain(want - avail, memory);
      if tmp == null {
        RegrownCut(old(g), h, h);
        return -1, [];
      }
      spaces := AddSpace(tmp, rmvAll, avail);
      Sizes();
      RegrownCut(old(g), h, g);
      OffersMore(spaces, 2, avail + tmp.SpaceLen(), n, want);
      r := 0;
    }

    lemma Sizes()
      requires Valid()
      ensures g.Ok() && g.Sized()
    {
    }

    lemma RegrownCut(was: Layout, h: Layout, now: Layout)
      requires was.Ok() && h == was.Cut() && now.Sized() && h.Sized() && now.Cut() == h.Cut()
      requires |now.chains| <= |h.chains| + 1 && was.Sized()
      ensures now.Regrown(was)
    {
      hide Flatten, NoDup, EmptyFrom;
      was.CutAgain();
    }

    lemma OffersMore(spaces: seq<nat>, n: nat, want: nat, m: nat, less: nat)
      requires Offers(spaces, n, want) && n <= m && less <= want
      ensures Offers(spaces, m, less)
    {
      hide Valid;
    }

    /** Cut the list behind the data, and see what space there is in what stays. */
    method CutToData() returns (rmvAll: bool, avail: nat)
      requires Valid() && g.chains != [] && g.chains[g.lwd].Ok()
      modifies this`first, this`last, this`lastWithData, this`totalLen, this`g, g.chains`next
      ensures Valid() && Contents() == old(Contents()) && g == old(g.Cut())
      ensures avail == if rmvAll then 0 else old(g.chains[g.lwd].SpaceLen())
      ensures rmvAll == (old(g.chains[g.lwd].off) == 0)
      ensures if rmvAll then g.chains == []
              else g.lwd + 1 == |g.chains| && g.chains[g.lwd].Ok() && avail == g.chains[g.lwd].SpaceLen()
      ensures |g.chains| <= |old(g.chains)|
    {
      hide Flatten, Linked, NoDup, EmptyFrom;
      LinkedAt(g.chains, g.data, null, g.lwd);
      DerefAt(g.lwd);
      var lwdChain := Deref(lastWithData);
      rmvAll := lwdChain.off == 0;
      avail := if rmvAll then 0 else lwdChain.SpaceLen();
      CutEmpties();
    }

    /** Put the empty chain tmp behind the last chain with data, which offers avail bytes. */
    method AddSpace(tmp: Chain, rmvAll: bool, avail: nat) returns (ghost spaces: seq<nat>)
      requires Valid() && tmp.Ok() && tmp.next == null && tmp.off == 0 && tmp.misalign == 0 && tmp !in g.chains
      requires if rmvAll then g.chains == [] && avail == 0
               else g.lwd + 1 == |g.chains| && g.chains[g.lwd].Ok() && avail == g.chains[g.lwd].SpaceLen()
      modifies this`first, this`last, this`lastWithData, this`g, g.chains`next
      ensures Valid() && Contents() == old(Contents()) && g.chains == old(g.chains) + [tmp]
      ensures Offers(spaces, 2, avail + tmp.SpaceLen()) && g.Cut() == old(g.Cut())
    {
      hide Flatten, Linked, NoDup, EmptyFrom, Contents, Offers, Valid, Layout.Ok;
      Sizes();
      g.PushRegrown(tmp);
      if rmvAll {
        SetOnly(tmp);
        spaces := [tmp.SpaceLen()];
      } else {
        AppendEmpty(tmp);
        spaces := if avail == 0 then [tmp.SpaceLen()] else [avail, tmp.SpaceLen()];
        assert g.chains[g.lwd] == old(g.chains[g.lwd]);
      }
      assert g.chains[|g.chains| - 1] == tmp;
      OffersLast(tmp, avail, spaces);
    }

    /** The space of the chain behind the data, if it has any, and of the empty last one. */
    lemma OffersLast(tmp: Chain, avail: nat, spaces: seq<nat>)
      requires Valid() && g.chains != [] && g.chains[|g.chains| - 1] == tmp && tmp.Ok() && tmp.off == 0 &&
               tmp.misalign == 0
      requires if g.lwd + 1 == |g.chains| then avail == 0
               else g.lwd + 2 == |g.chains| && g.chains[g.lwd].Ok() && avail == g.chains[g.lwd].SpaceLen()
      requires spaces == if avail == 0 then [tmp.SpaceLen()] else [avail, tmp.SpaceLen()]
      ensures Offers(spaces, 2, avail + tmp.SpaceLen())
    {
      hide Valid;
      SumSnoc([], tmp.SpaceLen());
      SumSnoc([avail], tmp.SpaceLen());
      SumSnoc([], avail);
      assert [avail] + [tmp.SpaceLen()] == [avail, tmp.SpaceLen()] && [] + [tmp.SpaceLen()] == [tmp.SpaceLen()] &&
             [] + [avail] == [avail];
    }

    /** There is no chain at all: insert one. */
    method FirstSpace(chain: Chain) returns (ghost spaces: seq<nat>)
      requires Valid() && last == null && chain.Ok() && chain.next == null && chain.off == 0 && chain.misalign == 0
      modifies this`first, this`last, this`lastWithData, this`g, this`totalLen
      ensures Valid() && Contents() == old(Contents()) && g.chains == [chain] && Offers(spaces, 1, chain.SpaceLen())
      ensures g.Regrown(old(g))
    {
      hide Flatten, Linked, NoDup, EmptyFrom, Valid, Offers, Contents, Layout.Ok;
      ghost var was := g;
      NoneYet();
      g.PushRegrown(chain);
      InsertChain(chain);
      assert Contents() == old(Contents()) + [];
      spaces := [chain.SpaceLen()];
      OnlyOffer(chain);
    }

    lemma NoneYet()
      requires Valid() && last == null
      ensures Tracked() && g.Ok() && g.chains == [] && g.Sized() && g.Cut() == g
    {
      ValidTracked();
    }

    lemma OnlyOffer(chain: Chain)
      requires Valid() && g.chains == [chain] && chain.Ok() && chain.off == 0 && chain.misalign == 0
      ensures Offers([chain.SpaceLen()], 1, chain.SpaceLen())
    {
      hide Flatten, Linked, NoDup, EmptyFrom;
      SumSnoc([], chain.SpaceLen());
      assert [] + [chain.SpaceLen()] == [chain.SpaceLen()];
    }

    /** The loop over the chains ran off the end: add one more. */
    method GrowByOne(tmp: Chain, ghost spaces: seq<nat>) returns (ghost more: seq<nat>)
      requires Valid() && g.chains != [] && g.chains[g.lwd].Ok() && SpacesAt(Usable(), spaces) &&
               Usable() + |spaces| == |g.chains|
      requires tmp.Ok() && tmp.next == null && tmp.off == 0 && tmp.misalign == 0 && tmp !in g.chains
      modifies this`first, this`last, this`g, g.chains`next
      ensures Valid() && Contents() == old(Contents()) && g.chains == old(g.chains) + [tmp]
      ensures Offers(more, |spaces| + 1, Sum(spaces) + tmp.SpaceLen()) && g.Regrown(old(g))
    {
      hide Flatten, Linked, NoDup, EmptyFrom, Valid, Contents, Layout.Ok, Layout.Sized, Layout.Regrown;
      Sizes();
      g.PushRegrown(tmp);
      ghost var f := Usable();
      AppendEmpty(tmp);
      more := spaces + [tmp.SpaceLen()];
      OneMoreOffer(f, tmp, spaces);
    }

    lemma OneMoreOffer(f: nat, tmp: Chain, spaces: seq<nat>)
      requires Valid() && g.lwd < |g.chains| && g.chains[g.lwd].Ok() && f == Usable()
      requires SpacesAt(f, spaces) && f + |spaces| + 1 == |g.chains| && tmp == g.chains[|g.chains| - 1] && tmp.Ok()
      ensures Offers(spaces + [tmp.SpaceLen()], |spaces| + 1, Sum(spaces) + tmp.SpaceLen())
    {
      hide Valid;
      SumSnoc(spaces, tmp.SpaceLen());
    }

    /** Make want bytes of space in at most n chains, without moving data. */
    method ExpandFast(want: nat, n: nat, memory: bool) returns (r: int, ghost spaces: seq<nat>)
      requires Valid() && n >= 2
      modifies this, g.chains`next, g.chains`misalign
      ensures Valid() && Contents() == old(Contents()) && unchanged(this`freezeStart, this`freezeEnd)
      ensures forall c :: c in g.chains ==> c in old(g.chains) || (fresh(c) && c.bufferLen <= RoundedUp(want))
      ensures r == 0 || r == -1
      ensures memory && want <= CHAIN_LIMIT ==> r == 0
      ensures r == 0 ==> Offers(spaces, n, want)
      ensures |old(g.chains)| < n ==> old(g.chains) <= g.chains
      ensures forall c :: c in g.chains && c in old(g.chains) ==> c.misalign <= old(c.misalign)
      ensures g.Regrown(old(g))
    {
      hide Flatten, Linked, NoDup, EmptyFrom, Contents;
      spaces := [];
      if last == null {
        var chain := NewChain(want, memory);
        if chain == null {
          return -1, [];
        }
        spaces := FirstSpace(chain);
        return 0, spaces;
      }
      var chain, avail, used;
      ghost var k;
      chain, avail, used, spaces, k := CountSpace(want, n);
      r, spaces := ExpandBy(want, n, memory, avail, used, spaces);
    }

    /** What is there counted avail bytes in used chains: is it enough, is one more chain allowed? */
    method ExpandBy(want: nat, n: nat, memory: bool, avail: nat, used: nat, ghost spaces0: seq<nat>)
        returns (r: int, ghost spaces: seq<nat>)
      requires Valid() && g.chains != [] && n >= 2 && g.chains[g.lwd].Ok()
      requires used == |spaces0| <= n && avail == Sum(spaces0) && SpacesAt(Usable(), spaces0)
      requires avail >= want || used == n || |g.chains| == Usable() + used
      modifies this, g.chains`next
      ensures Valid() && Contents() == old(Contents()) && unchanged(this`freezeStart, this`freezeEnd)
      ensures forall c :: c in g.chains ==> c in old(g.chains) || (fresh(c) && c.bufferLen <= RoundedUp(want))
      ensures r == 0 || r == -1
      ensures memory && want <= CHAIN_LIMIT ==> r == 0
      ensures r == 0 ==> Offers(spaces, n, want)
      ensures |old(g.chains)| < n ==> old(g.chains) <= g.chains
      ensures g.Regrown(old(g))
    {
      hide Flatten, Linked, NoDup, EmptyFrom, Contents, Valid, Offers, SpacesAt;
      hide Layout.Ok, Layout.Regrown, Layout.Sized;
      spaces := spaces0;
      Sizes();
      StillThere(g);
      SpacesFew(spaces);
      if avail >= want {
        Offered(spaces, n, want);
        return 0, spaces;
      }
      if used < n {
        var tmp := NewChain(want - avail, memory);
        if tmp == null {
          return -1, [];
        }
        spaces := GrowByOne(tmp, spaces);
        OffersMore(spaces, used + 1, avail + tmp.SpaceLen(), n, want);
        return 0, spaces;
      }
      FirstSpaceCounted(spaces);
      r, spaces := ReplaceEmpties(want, n, memory);
    }

    lemma SpacesFew(spaces: seq<nat>)
      requires g.chains != [] && g.lwd < |g.chains| && g.chains[g.lwd].Ok() && SpacesAt(Usable(), spaces)
      ensures |spaces| <= |g.chains|
    {
    }

    lemma Offered(spaces: seq<nat>, n: nat, want: nat)
      requires Valid() && g.chains != [] && g.chains[g.lwd].Ok()
      requires SpacesAt(Usable(), spaces) && |spaces| <= n && Sum(spaces) >= want
      ensures Offers(spaces, n, want)
    {
      hide Valid;
    }

    /** The space in the last chain with data is part of what was counted. */
    lemma FirstSpaceCounted(spaces: seq<nat>)
      requires g.chains != [] && g.lwd < |g.chains| && g.chains[g.lwd].Ok() && spaces != [] &&
               SpacesAt(Usable(), spaces)
      ensures g.chains[g.lwd].SpaceLen() <= Sum(spaces)
    {
    }

    /** The areas begin right behind the data of consecutive chains from index f on, and fit. */
    ghost predicate Fit(f: nat, vecs: seq<IoVec>)
      reads this, g.chains
    {
      f + |vecs| <= |g.chains| &&
      forall i :: f <= i < f + |vecs| ==>
                    var c := g.chains[i];
                    c.Ok() && vecs[i - f].chain == c && vecs[i - f].at == c.misalign + c.off &&
                        vecs[i - f].len <= c.SpaceLen()
    }

    lemma FitNone(f: nat)
      requires f <= |g.chains|
      ensures Fit(f, [])
    {
    }

    lemma FitSnoc(f: nat, vecs: seq<IoVec>, vec: IoVec)
      requires Fit(f, vecs) && f + |vecs| < |g.chains|
      requires var c := g.chains[f + |vecs|];
               c.Ok() && vec.chain == c && vec.at == c.misalign + c.off && vec.len <= c.SpaceLen()
      ensures Fit(f, vecs + [vec])
    {
    }

    lemma OffersIn(spaces: seq<nat>, n: nat, want: nat)
      requires Offers(spaces, n, want)
      ensures g.lwd < |g.chains| && g.chains[g.lwd].Ok() && Deref(lastWithData) == g.chains[g.lwd]
      ensures g.chains[g.lwd].next == After(g.chains, g.lwd, null)
      ensures Usable() + |spaces| <= |g.chains| && |spaces| <= n && Sum(spaces) >= want
    {
      hide Flatten, Linked, NoDup, EmptyFrom, Sum;
      DerefAt(g.lwd);
      LinkedAt(g.chains, g.data, null, g.lwd);
    }

    lemma OfferAt(spaces: seq<nat>, n: nat, want: nat, i: nat)
      requires Offers(spaces, n, want) && i < |spaces|
      ensures g.lwd < |g.chains| && g.chains[g.lwd].Ok() && Usable() + i < |g.chains|
      ensures var c := g.chains[Usable() + i];
              c.Ok() && c.SpaceLen() == spaces[i] && c.next == After(g.chains, Usable() + i, null)
    {
      hide Flatten, Linked, NoDup, EmptyFrom, Sum;
      LinkedAt(g.chains, g.data, null, Usable() + i);
    }

    /** Describe the space behind the data as areas. */
    method SetupVecs(want: nat, n: nat, ghost spaces: seq<nat>) returns (vecs: seq<IoVec>)
      requires Offers(spaces, n, want)
      ensures |vecs| <= n && Fit(Usable(), vecs) && Sum(Lens(vecs)) >= want
    {
      hide Fit, Sum, Offers;
      OffersIn(spaces, n, want);
      var chain := Deref(lastWithData);
      if chain.SpaceLen() == 0 {
        chain := chain.next;
      }
      var soFar, i := 0, 0;
      vecs := [];
      ghost var f := Usable();
      FitNone(f);
      SumNone();
      while i < n && soFar < want
        invariant i == |vecs| <= n && i <= |spaces| && soFar == Sum(spaces[..i])
        invariant forall m :: 0 <= m < i ==> vecs[m].len == spaces[m]
        invariant chain == if f + i < |g.chains| then g.chains[f + i] else null
        invariant Fit(f, vecs)
        decreases n - i
      {
        SpaceStep(spaces, i);
        OfferAt(spaces, n, want, i);
        var vec := IoVec(chain, chain.misalign + chain.off, chain.SpaceLen());
        FitSnoc(f, vecs, vec);
        vecs := vecs + [vec];
        soFar := soFar + chain.SpaceLen();
        chain := chain.next;
        i := i + 1;
      }
      assert spaces[..|spaces|] == spaces;
      assert Lens(vecs) == spaces[..i];
    }

    /** Put tmp, which holds the same bytes, in the place of the last chain with data. */
    method Replace(chainp: Link, chain: Chain, tmp: Chain)
      requires Valid() && g.chains != [] && chain == g.chains[g.lwd] && chainp == LinkTo(g.lwd)
      requires chain.Ok() && tmp.Ok() && tmp.Data() == chain.Data() && tmp !in g.chains
      modifies this`first, this`last, this`g, g.chains`next, tmp`next
      ensures Valid() && g == old(Layout(g.chains[g.lwd := tmp], g.data, g.lwd)) && Contents() == old(Contents())
    {
      hide Flatten, Linked, NoDup, EmptyFrom, Valid, Layout.Ok;
      InOrder();
      ghost var was, k := g, g.lwd;
      was.ExchangeOk(tmp);
      LinkedAt(was.chains, was.data, null, k);
      Relay(chainp, chain, tmp, k);
      if last == chain {
        last := tmp;
      }
      g := Layout(was.chains[k := tmp], was.data, k);
      Together();
    }

    /** The links to and from the chain at index k now are those to and from tmp. */
    method Relay(chainp: Link, chain: Chain, tmp: Chain, ghost k: nat)
      requires g.Ok() && Linked(g.chains, g.data, null) && first == Head(g.chains, null) && k < |g.chains|
      requires chain == g.chains[k] && chainp == LinkTo(k) && tmp.Ok() && tmp.Data() == g.data[k] && tmp !in g.chains
      modifies this`first, g.chains`next, tmp`next
      ensures Linked(g.chains[k := tmp], g.data, null) && first == g.chains[k := tmp][0]
      ensures k + 1 < |g.chains| ==> g.chains[k] != g.chains[|g.chains| - 1]
    {
      hide Flatten, Linked, NoDup, EmptyFrom;
      ghost var cs, ds := g.chains, g.data;
      DistinctAt(cs, k, |cs| - 1);
      Focus(cs, ds, null, k);
      DistinctCut(cs, k);
      NotInParts(tmp, cs, k);
      if k > 0 { NotBehind(cs, k - 1, k + 1); }
      if chainp.FirstOf? {
        first := tmp;
        LinkedNone(tmp);
        assert cs[..k] == [] && ds[..k] == [];
      } else {
        assert chainp.chain == cs[..k][k - 1];
        Relink(chainp.chain, tmp, cs[..k], ds[..k], chain, k - 1);
        assert cs[..k][..k] == cs[..k] && ds[..k][..k] == ds[..k];
      }
      tmp.next := chain.next;
      ghost var after := cs[k := tmp];
      assert after[..k] == cs[..k] && after[k + 1..] == cs[k + 1..];
      Refocus(after, ds, null, k, ds[k]);
      assert ds[k := ds[k]] == ds;
    }

    /** result is the chain at index c, behind whose data there are datlen bytes of space. */
    ghost predicate Spacious(result: Chain, c: nat, datlen: nat)
      reads this, g.chains
    {
      && g.lwd <= c <= g.lwd + 1 && c < |g.chains| && g.chains[g.lwd].Ok()
      && result == g.chains[c] && result.Ok() && result.SpaceLen() >= datlen
    }

    /** A new chain at the end; the empty ones are freed. */
    method InsertNew(datlen: nat, memory: bool) returns (result: Chain?, ghost c: nat)
      requires Valid()
      modifies this`first, this`last, this`lastWithData, this`g, this`totalLen, g.chains`next
      ensures Valid() && Contents() == old(Contents())
      ensures result == null <==> !memory || datlen > CHAIN_LIMIT
      ensures result == null ==> g == old(g)
      ensures result != null ==>
                Spacious(result, c, datlen) && c + 1 == |g.chains| &&
                forall x :: x in g.chains ==> x in old(g.chains) || fresh(x)
    {
      hide Flatten, Linked, NoDup, EmptyFrom;
      c := 0;
      result := NewChain(datlen, memory);
      if result != null {
        CoreListed();
        InsertChain(result);
        c := |g.chains| - 1;
        LinkedAt(g.chains, g.data, null, g.lwd);
        assert Contents() == old(Contents()) + [];
      }
    }

    /** What is reserved in one area is the space of an empty chain that has another one behind it, although the
        last chain with data has some space left: that is where evbuffer_commit_space does not look. */
    ghost predicate Stuck(datlen: nat)
      reads this, g.chains
    {
      g.lwd + 2 < |g.chains| &&
      var chain, next := g.chains[g.lwd], g.chains[g.lwd + 1];
      && chain.Ok() && next.Ok() && chain.off > 0 && 0 < chain.SpaceLen() < datlen && !chain.ShouldRealign(datlen)
      && (chain.SpaceLen() < chain.bufferLen / 8 || chain.off > MAX_TO_COPY || datlen >= CHAIN_MAX - chain.off)
      && next.SpaceLen() >= datlen
    }

    /** Will evbuffer_commit_space look at the chain with index c? */
    ghost predicate LookedAt(c: nat)
      requires g.lwd < |g.chains| && g.chains[g.lwd].Ok()
      reads this, g.chains
    {
      c == Usable() || c + 1 == |g.chains|
    }

    /** Make datlen bytes of space in one chain: use it as it is, realign it, resize it, or take another one. */
    method ExpandSinglechain(datlen: nat, memory: bool) returns (result: Chain?, ghost c: nat)
      requires Valid()
      modifies this, g.chains
      ensures Valid() && Contents() == old(Contents()) && unchanged(this`freezeStart, this`freezeEnd)
      ensures forall x :: x in g.chains ==> x in old(g.chains) || fresh(x)
      ensures memory && datlen + MAX_TO_COPY <= CHAIN_LIMIT ==> result != null
      ensures result != null ==> Spacious(result, c, datlen) && (LookedAt(c) <==> !old(Stuck(datlen)))
    {
      hide Flatten, Linked, NoDup, EmptyFrom, Contents;
      var chainp := lastWithData;
      DerefAt(g.lwd);
      DerefAt(if g.chains == [] then 0 else g.lwd + 1);
      if g.chains != [] { LinkedAt(g.chains, g.data, null, g.lwd); }
      c := g.lwd;
      if Deref(chainp) != null && Deref(chainp).SpaceLen() == 0 {
        chainp := NextOf(Deref(chainp));
        c := g.lwd + 1;
      }
      var chain := Deref(chainp);
      if chain == null {
        result, c := InsertNew(datlen, memory);
        return;
      }
      LinkedAt(g.chains, g.data, null, c);
      if chain.SpaceLen() >= datlen {
        result := chain;
        return;
      }
      if chain.off == 0 {
        result, c := InsertNew(datlen, memory);
        return;
      }
      EmptyAt(c);
      if chain.ShouldRealign(datlen) {
        CoreListed();
        AlignLast(chain);
        ValidTracked();
        result := chain;
        return;
      }
      result, c := ExpandFull(chainp, chain, datlen, memory);
    }

    /** The chain with the last data has too little space and is not worth realigning. */
    method ExpandFull(chainp: Link, chain: Chain, datlen: nat, memory: bool) returns (result: Chain?, ghost c: nat)
      requires Valid() && g.chains != [] && chain == g.chains[g.lwd] && chainp == LinkTo(g.lwd)
      requires chain.Ok() && chain.off > 0 && 0 < chain.SpaceLen() < datlen && !chain.ShouldRealign(datlen)
      modifies this`first, this`last, this`lastWithData, this`g, this`totalLen, g.chains`next
      ensures Valid() && Contents() == old(Contents())
      ensures forall x :: x in g.chains ==> x in old(g.chains) || fresh(x)
      ensures memory && datlen + MAX_TO_COPY <= CHAIN_LIMIT ==> result != null
      ensures result != null ==> Spacious(result, c, datlen) && (LookedAt(c) <==> !old(Stuck(datlen)))
    {
      hide Flatten, Linked, NoDup, EmptyFrom, Contents, LinkIn;
      LinkedAt(g.chains, g.data, null, g.lwd);
      c := g.lwd + 1;
      if chain.SpaceLen() < chain.bufferLen / 8 || chain.off > MAX_TO_COPY || datlen >= CHAIN_MAX - chain.off {
        if c < |g.chains| { LinkedAt(g.chains, g.data, null, c); }
        if chain.next != null && chain.next.SpaceLen() >= datlen {
          result := chain.next;
        } else {
          result, c := InsertNew(datlen, memory);
        }
        return;
      }
      result := Resize(chainp, chain, datlen, memory);
      c := g.lwd;
    }

    /** Copy the data of the last chain with data into a larger one, which takes its place. */
    method Resize(chainp: Link, chain: Chain, datlen: nat, memory: bool) returns (tmp: Chain?)
      requires Valid() && g.chains != [] && chain == g.chains[g.lwd] && chainp == LinkTo(g.lwd) && chain.Ok()
      modifies this`first, this`last, this`g, g.chains`next
      ensures Valid() && Contents() == old(Contents())
      ensures forall x :: x in g.chains ==> x in old(g.chains) || fresh(x)
      ensures tmp == null <==> !memory || old(chain.off) + datlen > CHAIN_LIMIT
      ensures tmp != null ==> Spacious(tmp, g.lwd, datlen)
    {
      hide Flatten, Linked, NoDup, EmptyFrom, Contents, Valid;
      ValidCore();
      tmp := NewChain(chain.off + datlen, memory);
      if tmp != null {
        tmp.Append(chain.Data());
        Replace(chainp, chain, tmp);
      }
    }

    /** The space of a single chain as an area. */
    method ReserveOne(size: nat, memory: bool) returns (r: int, vecs: seq<IoVec>)
      requires Valid()
      modifies this, g.chains
      ensures Valid() && Contents() == old(Contents()) && unchanged(this`freezeStart, this`freezeEnd)
      ensures forall c :: c in g.chains ==> c in old(g.chains) || fresh(c)
      ensures memory && size + MAX_TO_COPY <= CHAIN_LIMIT ==> r == 1
      ensures r == 1 || r == -1
      ensures r == 1 ==> Reserved(vecs) && |vecs| == 1 && vecs[0].len >= size
      ensures r == 1 ==> (Fit(Usable(), vecs) || Lone(vecs) <==> !old(Stuck(size)))
    {
      hide Flatten, Linked, NoDup, EmptyFrom, Contents, Layout.Ok, Valid;
      var chain;
      ghost var c;
      chain, c := ExpandSinglechain(size, memory);
      if chain == null {
        return -1, [];
      }
      vecs := [IoVec(chain, chain.misalign + chain.off, chain.SpaceLen())];
      AreaAt(c, vecs);
      r := 1;
    }

    lemma AreaAt(c: nat, vecs: seq<IoVec>)
      requires Valid() && |vecs| == 1 && Spacious(vecs[0].chain, c, vecs[0].len)
      requires vecs[0].at == vecs[0].chain.misalign + vecs[0].chain.off
      ensures Fit(c, vecs)
      ensures Fit(Usable(), vecs) || Lone(vecs) <==> LookedAt(c)
    {
      hide Flatten, Linked, EmptyFrom;
      if Fit(Usable(), vecs) { assert g.chains[Usable()] == vecs[0].chain; }
      DistinctAt(g.chains, c, |g.chains| - 1);
    }

    /** The areas are the space of consecutive chains, from the last one with data or the next one on. */
    ghost predicate Reserved(vecs: seq<IoVec>)
      reads this, g.chains
    {
      g.chains != [] && g.lwd < |g.chains| && g.chains[g.lwd].Ok() && (Fit(g.lwd, vecs) || Fit(g.lwd + 1, vecs))
    }

    /** Offer at most nVecs free areas of together at least size bytes. */
    method ReserveSpace(size: int, nVecs: int, memory: bool) returns (r: int, vecs: seq<IoVec>)
      requires Valid() && size <= SSIZE_MAX && -size <= SSIZE_MAX + 1
      modifies this, g.chains
      ensures Valid() && Contents() == old(Contents()) && unchanged(this`freezeStart, this`freezeEnd)
      ensures forall c :: c in g.chains ==> c in old(g.chains) || fresh(c)
      ensures r == if r >= 0 then |vecs| else -1
      ensures r >= 0 ==> |vecs| <= nVecs && Reserved(vecs) && Sum(Lens(vecs)) >= size
      ensures r >= 0 && nVecs > 1 ==> Fit(Usable(), vecs)
      ensures r >= 0 && nVecs == 1 && size >= 0 ==> (Fit(Usable(), vecs) || Lone(vecs) <==> !old(Stuck(size)))
      ensures nVecs > 1 ==> g.Regrown(old(g)) && (|old(g.chains)| < nVecs ==> old(g.chains) <= g.chains)
      ensures nVecs > 1 ==> forall c :: c in g.chains && c in old(g.chains) ==> c.misalign <= old(c.misalign)
      ensures nVecs > 1 && size >= 0 ==>
                forall c :: c in g.chains ==> c in old(g.chains) || c.bufferLen <= RoundedUp(size)
      ensures freezeEnd || nVecs < 1 ==> r == -1
      ensures memory && !freezeEnd && 0 <= size <= (if nVecs == 1 then CHAIN_LIMIT - MAX_TO_COPY else CHAIN_LIMIT) ==>
                (r >= 0 <==> nVecs >= 1)
    {
      hide Flatten, Linked, NoDup, EmptyFrom, Contents, Valid, Stuck, Lone, Fit, Reserved, Layout.Regrown, Layout.Ok;
      Sizes();
      if freezeEnd {
        StillThere(g);
        return -1, [];
      }
      if nVecs < 1 {
        return -1, [];
      }
      var asSize := if size < 0 then size + SIZE_MAX + 1 else size;
      if nVecs == 1 {
        r, vecs := ReserveOne(asSize, memory);
        if r == 1 { SumOne(vecs); }
        return;
      }
      r, vecs := ReserveMany(asSize, size, nVecs, memory);
    }

    lemma StillThere(o: Layout)
      requires o.Ok()
      ensures o.Sized() && o.Regrown(o)
    {
    }

    /** The space of several chains as areas. */
    method ReserveMany(asSize: nat, size: int, nVecs: int, memory: bool) returns (r: int, vecs: seq<IoVec>)
      requires Valid() && nVecs > 1 && (size >= 0 ==> asSize == size)
      modifies this, g.chains
      ensures Valid() && Contents() == old(Contents()) && unchanged(this`freezeStart, this`freezeEnd)
      ensures forall c :: c in g.chains ==> c in old(g.chains) || (fresh(c) && c.bufferLen <= RoundedUp(asSize))
      ensures r == if r >= 0 then |vecs| else -1
      ensures r >= 0 ==> |vecs| <= nVecs && Reserved(vecs) && Fit(Usable(), vecs) && Sum(Lens(vecs)) >= size
      ensures g.Regrown(old(g)) && (|old(g.chains)| < nVecs ==> old(g.chains) <= g.chains)
      ensures forall c :: c in g.chains && c in old(g.chains) ==> c.misalign <= old(c.misalign)
      ensures memory && 0 <= size <= CHAIN_LIMIT ==> r >= 0
    {
      hide Flatten, Linked, NoDup, EmptyFrom, Contents, Fit, Layout.Regrown, Layout.Ok;
      Sizes();
      var ok;
      ghost var spaces;
      ok, spaces := ExpandFast(asSize, nVecs, memory);
      if ok < 0 {
        return -1, [];
      }
      if size < 0 {
        return -1, [];
      }
      vecs := SetupVecs(size, nVecs, spaces);
      UsableNear();
      r := |vecs|;
    }

    /** If the chain the cache names is the last one, its space is all that can be offered. */
    lemma OnlySpace(vecs: seq<IoVec>)
      requires g.lwd < |g.chains| && g.chains[g.lwd].Ok() && Fit(Usable(), vecs)
      ensures g.lwd + 1 == |g.chains| ==> Sum(Lens(vecs)) <= g.chains[g.lwd].SpaceLen()
    {
      if g.lwd + 1 == |g.chains| && vecs != [] {
        assert g.chains[Usable()] == vecs[0].chain && |vecs| == 1;
        assert Lens(vecs)[1..] == [];
      }
    }

    /** Take len bytes of the area behind the data of the chain at index c into the buffer. */
    method CommitOne(link: Link, chain: Chain, len: nat, ghost c: nat, ghost bytes: seq<byte>, ghost over: int)
      requires Overcounted(over) && g.lwd <= c < |g.chains| && chain == g.chains[c] && link == LinkTo(c)
      requires chain.Ok() && len <= chain.SpaceLen() && IoVec(chain, chain.misalign + chain.off, len).Holds(bytes)
      modifies chain`off, this`lastWithData, this`g
      ensures Overcounted(over - len) && g == old(g.Extend(c, bytes)) && Contents() == old(Contents()) + bytes
    {
      hide Flatten, Linked, NoDup, EmptyFrom, LinkIn;
      ghost var was := g;
      was.ExtendOk(c, bytes);
      Focus(was.chains, was.data, null, c);
      chain.off := chain.off + len;
      assert chain.Data() == was.data[c] + bytes;
      Refocus(was.chains, was.data, null, c, was.data[c] + bytes);
      if len > 0 {
        lastWithData := link;
      }
      g := was.Extend(c, bytes);
    }

    /** Does every area begin where a chain has space, one chain after the other from `from` on? */
    method CheckAreas(from: Chain?, vecs: seq<IoVec>, ghost f: nat) returns (ok: bool)
      requires Valid() && f <= |g.chains| && from == if f < |g.chains| then g.chains[f] else null
      ensures ok <==> Fit(f, vecs)
    {
      hide Flatten, Linked, NoDup, EmptyFrom;
      var chain := from;
      var i := 0;
      while i < |vecs|
        invariant 0 <= i <= |vecs| && f + i <= |g.chains|
        invariant chain == if f + i < |g.chains| then g.chains[f + i] else null
        invariant Fit(f, vecs[..i])
      {
        if chain == null {
          return false;
        }
        LinkedAt(g.chains, g.data, null, f + i);
        if vecs[i].chain != chain || vecs[i].at != chain.misalign + chain.off || vecs[i].len > chain.SpaceLen() {
          assert g.chains[f + i] == chain;
          return false;
        }
        chain := chain.next;
        i := i + 1;
      }
      assert vecs[..i] == vecs;
      ok := true;
    }

    /** The areas, behind the data of the chains from index c on, hold these bytes. */
    ghost predicate Filling(c: nat, vecs: seq<IoVec>, pieces: seq<seq<byte>>)
      reads this, g.chains, set v | v in vecs :: v.chain
    {
      Fit(c, vecs) && |pieces| == |vecs| && forall i :: 0 <= i < |vecs| ==> vecs[i].Holds(pieces[i])
    }

    /** What fits into the areas is taken over chain by chain. */
    method CommitAll(first0: Link, vecs: seq<IoVec>, ghost f: nat, ghost pieces: seq<seq<byte>>) returns (added: nat)
      requires Valid() && g.lwd <= f <= |g.chains| && first0 == LinkTo(f) && Fit(f, vecs) && vecs != [] &&
               g.chains != []
      requires |pieces| == |vecs| && forall i :: 0 <= i < |vecs| ==> vecs[i].Holds(pieces[i])
      modifies this`lastWithData, this`g, g.chains`off
      ensures Overcounted(0 - added) && Contents() == old(Contents()) + Flatten(pieces) && g.chains == old(g.chains)
    {
      hide Flatten, Linked, NoDup, EmptyFrom, Fit, Overcounted, Contents, Valid, Core, Layout.Ok, IoVec.Holds, LinkIn;
      hide Filling;
      var chainp := first0;
      added := 0;
      ValidCounted();
      FillingAll(f, vecs, pieces);
      var i := 0;
      ghost var c, left := f, pieces;
      while i < |vecs|
        invariant 0 <= i <= |vecs| && |left| == |vecs| - i
        invariant g.chains == old(g.chains) && Overcounted(0 - added) && g.lwd <= c <= |g.chains|
        invariant Filling(c, vecs[i..], left) && chainp == LinkTo(c)
        invariant Contents() + Flatten(left) == old(Contents()) + Flatten(pieces)
      {
        FillingAt(c, vecs, i, left);
        CommitNext(chainp, vecs[i], c, vecs[i + 1..], left, 0 - added);
        added := added + vecs[i].len;
        chainp := NextOf(vecs[i].chain);
        i := i + 1;
        c, left := c + 1, left[1..];
      }
      FlattenEmpties(left);
    }

    lemma FillingAll(f: nat, vecs: seq<IoVec>, pieces: seq<seq<byte>>)
      requires Fit(f, vecs) && |pieces| == |vecs| && forall i :: 0 <= i < |vecs| ==> vecs[i].Holds(pieces[i])
      ensures Filling(f, vecs[0..], pieces)
    {
      assert vecs[0..] == vecs;
    }

    lemma FillingAt(c: nat, vecs: seq<IoVec>, i: nat, left: seq<seq<byte>>)
      requires i < |vecs| && Filling(c, vecs[i..], left)
      ensures Filling(c, [vecs[i]] + vecs[i + 1..], left) && left != []
      ensures c < |g.chains| && vecs[i].chain == g.chains[c] && vecs[i].chain in g.chains
    {
      assert vecs[i..] == [vecs[i]] + vecs[i + 1..];
      assert vecs[i..][0].chain == g.chains[c];
    }

    lemma ValidCounted()
      requires Valid() && g.chains != []
      ensures Overcounted(0)
    {
    }

    /** The first area is taken over, the others are left. */
    method CommitNext(chainp: Link, vec: IoVec, ghost c: nat, ghost rest: seq<IoVec>, ghost left: seq<seq<byte>>,
        ghost over: int)
      requires Overcounted(over) && g.lwd <= c < |g.chains| && Filling(c, [vec] + rest, left) && chainp == LinkTo(c)
      modifies this`lastWithData, this`g, vec.chain`off
      ensures Overcounted(over - vec.len) && g.chains == old(g.chains) && g.lwd <= c && vec.chain == g.chains[c]
      ensures Filling(c + 1, rest, left[1..]) && NextOf(vec.chain) == LinkTo(c + 1)
      ensures Contents() + Flatten(left[1..]) == old(Contents()) + Flatten(left)
    {
      hide Flatten, Linked, NoDup, EmptyFrom, Overcounted, Contents, Filling, Fit;
      FillingParts(c, vec, rest, left);
      CommitArea(chainp, vec, c, rest, left[0], over);
      FirstPiece(left);
      Assoc(old(Contents()), left[0], Flatten(left[1..]));
      FillingRest(c + 1, rest, left);
    }

    lemma FillingParts(c: nat, vec: IoVec, rest: seq<IoVec>, left: seq<seq<byte>>)
      requires Filling(c, [vec] + rest, left)
      ensures Fit(c, [vec] + rest) && |left| == |rest| + 1 && vec.Holds(left[0])
      ensures c < |g.chains| && vec.chain == g.chains[c]
      ensures forall i :: 0 <= i < |rest| ==> rest[i].Holds(left[i + 1])
    {
      hide IoVec.Holds;
      assert ([vec] + rest)[0] == vec && g.chains[c] == vec.chain;
      assert forall i :: 0 <= i < |rest| ==> rest[i] == ([vec] + rest)[i + 1];
    }

    lemma FillingRest(c: nat, rest: seq<IoVec>, left: seq<seq<byte>>)
      requires Fit(c, rest) && |left| == |rest| + 1 && forall i :: 0 <= i < |rest| ==> rest[i].Holds(left[i + 1])
      ensures Filling(c, rest, left[1..])
    {
      hide IoVec.Holds, Fit;
    }

    lemma FirstPiece(left: seq<seq<byte>>)
      requires left != []
      ensures Flatten(left) == left[0] + Flatten(left[1..])
    {
    }

    method CommitArea(chainp: Link, vec: IoVec, ghost c: nat, ghost rest: seq<IoVec>, ghost bytes: seq<byte>,
        ghost over: int)
      requires Overcounted(over) && g.lwd <= c < |g.chains| && Fit(c, [vec] + rest) && vec.Holds(bytes)
      requires chainp == LinkTo(c)
      modifies this`lastWithData, this`g, vec.chain`off
      ensures Overcounted(over - vec.len) && g.chains == old(g.chains) && g.lwd <= c && vec.chain == g.chains[c]
      ensures Fit(c + 1, rest) && Contents() == old(Contents()) + bytes
    {
      hide Flatten, Linked, NoDup, EmptyFrom;
      assert ([vec] + rest)[0] == vec && g.chains[c] == vec.chain;
      OthersThan(c);
      CommitOne(chainp, vec.chain, vec.len, c, bytes, over);
      forall i | c + 1 <= i < c + 1 + |rest|
        ensures g.chains[i].Ok() && rest[i - c - 1].chain == g.chains[i]
      {
      }
    }

    /** A single area that begins behind the data of the very last chain. */
    ghost predicate Lone(vecs: seq<IoVec>)
      reads this, if last == null then {} else {last}
    {
      |vecs| == 1 && last != null && last.Ok() && vecs[0].chain == last && vecs[0].at == last.misalign + last.off
    }

    /** What commit_space requires of its areas. */
    ghost predicate Committable(vecs: seq<IoVec>)
      reads this, g.chains, if last == null then {} else {last}
    {
      !freezeEnd && (vecs != [] ==>
        if Lone(vecs) then vecs[0].len <= last.SpaceLen()
        else g.chains != [] && g.lwd < |g.chains| && g.chains[g.lwd].Ok() && Fit(Usable(), vecs))
    }

    lemma LastAt()
      requires Valid()
      ensures last == null <==> g.chains == []
      ensures last != null ==> last == g.chains[|g.chains| - 1] && last in g.chains && last.Ok()
    {
      hide Flatten, Linked, NoDup, EmptyFrom;
      if g.chains != [] { LinkedAt(g.chains, g.data, null, |g.chains| - 1); }
    }

    /** Take the bytes written into reserved areas into the buffer; pieces are the bytes in the areas.
        The cache is lost exactly when a single area at the very end skips an empty chain. */
    method CommitSpace(vecs: seq<IoVec>, ghost pieces: seq<seq<byte>>) returns (r: int)
      requires Valid()
      requires |pieces| == |vecs| && (Committable(vecs) ==> forall i :: 0 <= i < |vecs| ==> vecs[i].Holds(pieces[i]))
      modifies this`lastWithData, this`g, this`totalLen, g.chains`off
      ensures Tracked() && g.chains == old(g.chains)
      ensures r == if old(Committable(vecs)) then 0 else -1
      ensures Contents() == if r == 0 then old(Contents()) + Flatten(pieces) else old(Contents())
      ensures Valid() <==> !(r == 0 && old(Lone(vecs)) && pieces[0] != [] && old(g.lwd) + 2 < |g.chains|)
    {
      hide Flatten, Linked, NoDup, EmptyFrom, Fit, Valid, Tracked;
      ValidTracked();
      ValidCore();
      LastAt();
      if freezeEnd {
        return -1;
      }
      if |vecs| == 0 {
        FlattenEmpties(pieces);
        return 0;
      } else if |vecs| == 1 && last != null && vecs[0].chain == last && vecs[0].at == last.misalign + last.off {
        if vecs[0].len > last.SpaceLen() {
          return -1;
        }
        assert pieces == [pieces[0]];
        FlattenOne(pieces[0]);
        CommitLast(vecs[0], pieces[0]);
        return 0;
      }
      r := CommitAreas(vecs, pieces);
      ValidTracked();
    }

    /** Take the bytes behind the data of the very last chain, then advance the cache as far as it goes. */
    method CommitLast(vec: IoVec, ghost bytes: seq<byte>)
      requires Valid() && last != null && last.Ok() && vec.chain == last && vec.at == last.misalign + last.off
      requires vec.len <= last.SpaceLen() && vec.Holds(bytes)
      modifies this`lastWithData, this`g, this`totalLen, g.chains`off
      ensures Tracked() && g.chains == old(g.chains) && Contents() == old(Contents()) + bytes
      ensures Valid() <==> bytes == [] || old(g.lwd) + 2 >= |g.chains|
    {
      hide Flatten, Linked, NoDup, EmptyFrom, NoGap, Advance, Valid, Tracked, LinkIn;
      ValidCore();
      ghost var was, c := g, |g.chains| - 1;
      was.ExtendOk(c, bytes);
      was.ExtendGap(bytes);
      Focus(was.chains, was.data, null, c);
      last.off := last.off + vec.len;
      assert last.Data() == was.data[c] + bytes;
      Refocus(was.chains, was.data, null, c, was.data[c] + bytes);
      g := Layout(was.chains, was.data[c := was.data[c] + bytes], was.lwd);
      if vec.len > 0 {
        AdvanceLastWithData();
      } else {
        was.StaysPut(bytes);
      }
      totalLen := totalLen + vec.len;
      Arrived(was.lwd);
    }

    /** The areas must be those from the first chain with space on. */
    method CommitAreas(vecs: seq<IoVec>, ghost pieces: seq<seq<byte>>) returns (r: int)
      requires Valid() && !freezeEnd && vecs != [] && !Lone(vecs)
      requires |pieces| == |vecs| && (Committable(vecs) ==> forall i :: 0 <= i < |vecs| ==> vecs[i].Holds(pieces[i]))
      modifies this`lastWithData, this`g, this`totalLen, g.chains`off
      ensures Valid() && g.chains == old(g.chains)
      ensures r == if old(Committable(vecs)) then 0 else -1
      ensures Contents() == if r == 0 then old(Contents()) + Flatten(pieces) else old(Contents())
    {
      hide Flatten, Linked, NoDup, EmptyFrom, Fit, Lone;
      DerefAt(g.lwd);
      if Deref(lastWithData) == null {
        return -1;
      }
      LinkedAt(g.chains, g.data, null, g.lwd);
      var firstp := lastWithData;
      if Deref(firstp).SpaceLen() == 0 {
        firstp := NextOf(Deref(firstp));
      }
      DerefAt(Usable());
      var ok := CheckAreas(Deref(firstp), vecs, Usable());
      if !ok {
        return -1;
      }
      var added := CommitAll(firstp, vecs, Usable(), pieces);
      totalLen := totalLen + added;
      return 0;
    }

    // ---------- reserving, writing and committing ----------

    /** The user fills the first bytes of a reserved area. */
    method WriteArea(vecs: seq<IoVec>, k: nat, bytes: seq<byte>, ghost f: nat)
      requires Valid() && Fit(f, vecs) && k < |vecs| && |bytes| <= vecs[k].len
      modifies vecs[k].chain`buffer
      ensures Valid() && Fit(f, vecs) && g == old(g)
      ensures IoVec(vecs[k].chain, vecs[k].at, |bytes|).Holds(bytes)
    {
      hide Flatten, Linked, NoDup, EmptyFrom;
      var chain := vecs[k].chain;
      assert chain == g.chains[f + k];
      ghost var d := g.data[f + k];
      Focus(g.chains, g.data, null, f + k);
      chain.CopyInto(vecs[k].at, bytes);
      assert chain.Data() == d;
      Refocus(g.chains, g.data, null, f + k, d);
      assert g.data[f + k := d] == g.data;
    }

    /** The user writes the first bytes of fill[k] into the k-th area, as many as fit, and shortens the areas. */
    method WriteAreas(vecs: seq<IoVec>, fill: seq<seq<byte>>, ghost f: nat)
        returns (used: seq<IoVec>, pieces: seq<seq<byte>>)
      requires Valid() && Fit(f, vecs)
      modifies g.chains`buffer
      ensures Valid() && Fit(f, used) && g == old(g) && |used| == |vecs| == |pieces|
      ensures forall k :: 0 <= k < |vecs| ==>
                used[k].chain == vecs[k].chain && used[k].at == vecs[k].at && used[k].Holds(pieces[k])
      ensures forall k :: 0 <= k < |vecs| ==> pieces[k] == Written(fill, k, vecs[k].len)
    {
      hide Valid, Fit, Written;
      used, pieces := [], [];
      for k := 0 to |vecs|
        invariant Valid() && Fit(f, vecs) && g == old(g) && |used| == |pieces| == k
        invariant forall m :: 0 <= m < k ==> pieces[m] == Written(fill, m, vecs[m].len)
        invariant forall m :: 0 <= m < k ==> used[m] == IoVec(vecs[m].chain, vecs[m].at, |pieces[m]|)
        invariant forall m :: 0 <= m < k ==> used[m].Holds(pieces[m])
      {
        var bytes := Written(fill, k, vecs[k].len);
        AreasApart(f, vecs, k);
        WriteArea(vecs, k, bytes, f);
        used := used + [IoVec(vecs[k].chain, vecs[k].at, |bytes|)];
        pieces := pieces + [bytes];
      }
      FitShorter(f, vecs, used);
    }

    lemma AreasApart(f: nat, vecs: seq<IoVec>, k: nat)
      requires Valid() && Fit(f, vecs) && k < |vecs|
      ensures vecs[k].chain in g.chains
      ensures forall m :: 0 <= m < k ==> vecs[m].chain != vecs[k].chain
    {
      hide Flatten, Linked, EmptyFrom;
      assert forall m :: 0 <= m < |vecs| ==> vecs[m].chain == g.chains[f + m];
    }

    lemma FitShorter(f: nat, vecs: seq<IoVec>, used: seq<IoVec>)
      requires Fit(f, vecs) && |used| == |vecs|
      requires forall m :: 0 <= m < |vecs| ==>
                 used[m].chain == vecs[m].chain && used[m].at == vecs[m].at && used[m].len <= vecs[m].len
      ensures Fit(f, used)
    {
    }

    /** Write into reserved areas and commit what was written. */
    method FillAndCommit(vecs: seq<IoVec>, fill: seq<seq<byte>>) returns (r: int, pieces: seq<seq<byte>>)
      requires Valid() && !freezeEnd && Reserved(vecs)
      modifies this`lastWithData, this`g, this`totalLen, g.chains`buffer, g.chains`off
      ensures Valid() && |pieces| == |vecs| && g.chains == old(g.chains)
      ensures forall k :: 0 <= k < |vecs| ==> pieces[k] == Written(fill, k, vecs[k].len)
      ensures r == if old(Fit(Usable(), vecs) || Lone(vecs)) then 0 else -1
      ensures Contents() == if r == 0 then old(Contents()) + Flatten(pieces) else old(Contents())
    {
      hide Flatten, Fit, Valid, Lone, Usable, Tracked, Written;
      ghost var u := Usable();
      UsableNear();
      ghost var f := if Fit(u, vecs) then u else if Fit(g.lwd, vecs) then g.lwd else g.lwd + 1;
      FitOnce(f, u, vecs);
      var used;
      used, pieces := WriteAreas(vecs, fill, f);
      UsableNear();
      FitOnce(f, Usable(), used);
      r := CommitSpace(used, pieces);
    }

    /** Where there is space depends on the chain the cache names. */
    lemma UsableNear()
      requires Valid() && g.chains != []
      ensures g.lwd < |g.chains| && g.chains[g.lwd].Ok() && (Usable() == g.lwd || Usable() == g.lwd + 1)
      ensures Usable() == if g.chains[g.lwd].misalign + g.chains[g.lwd].off == g.chains[g.lwd].bufferLen then g.lwd + 1
              else g.lwd
    {
      hide Flatten, Linked, EmptyFrom, NoDup;
      LinkedAt(g.chains, g.data, null, g.lwd);
    }

    /** Areas fit at one place only. */
    lemma FitOnce(f: nat, u: nat, vecs: seq<IoVec>)
      requires Valid() && Fit(f, vecs) && u <= |g.chains|
      ensures Fit(u, vecs) <==> vecs == [] || f == u
      ensures Lone(vecs) <==> |vecs| == 1 && f + 1 == |g.chains|
      ensures Lone(vecs) ==> vecs[0].len <= last.SpaceLen()
    {
      hide Flatten, Linked, EmptyFrom;
      if vecs != [] {
        assert g.chains[f] == vecs[0].chain;
        if Fit(u, vecs) {
          assert g.chains[u] == vecs[0].chain;
          DistinctAt(g.chains, u, f);
        }
        DistinctAt(g.chains, f, |g.chains| - 1);
      }
    }

    /** Reserve at least size bytes in at most nVecs areas, write into them, commit what was written.  With two
        areas or more this cannot go wrong; a single one is refused exactly in the state described by Stuck. */
    method Receive(size: int, nVecs: int, memory: bool, fill: seq<seq<byte>>)
        returns (r: int, pieces: seq<seq<byte>>, vecs: seq<IoVec>)
      requires Valid() && size <= SSIZE_MAX && -size <= SSIZE_MAX + 1
      modifies this, g.chains
      ensures Valid() && (r == 0 || r == -1) && |pieces| == |vecs|
      ensures Contents() == if r == 0 then old(Contents()) + Flatten(pieces) else old(Contents())
      ensures r == 0 ==> |vecs| <= nVecs && Sum(Lens(vecs)) >= size
      ensures forall k :: 0 <= k < |vecs| ==> pieces[k] == Written(fill, k, vecs[k].len)
      ensures memory && !freezeEnd && nVecs > 1 && 0 <= size <= CHAIN_LIMIT ==> r == 0
      ensures memory && !freezeEnd && nVecs == 1 && 0 <= size <= CHAIN_LIMIT - MAX_TO_COPY ==>
                (r == 0 <==> !old(Stuck(size)))
    {
      hide Flatten, Linked, NoDup, EmptyFrom, Fit, Valid, Contents, Stuck, Lone, Layout.Regrown;
      r, vecs := ReserveSpace(size, nVecs, memory);
      if r < 0 {
        return -1, [], [];
      }
      assert forall i :: 0 <= i < |g.chains| ==>
               g.chains[i] in g.chains &&
               (g.chains[i] in old(g.chains) || fresh(g.chains[i]));
      r, pieces := FillAndCommit(vecs, fill);
    }

    // ---------- evbuffer_ptr_set, evbuffer_search_range ----------

    /** Walk left bytes on from a position; null is returned behind the last chain. */
    method Walk(from: Chain?, fromPos: nat, left0: nat, ghost pos: nat, ghost k: nat)
        returns (chain: Chain?, posInChain: nat, left: nat, ghost i: nat)
      requires Valid() && PtrAt(Ptr(pos, from, fromPos), k)
      ensures chain != null ==>
                PtrAt(Ptr(pos + left0, chain, posInChain), i) && i < |g.chains| && posInChain < |g.data[i]|
      ensures chain == null ==> pos + left0 == |Contents()| + left
      ensures chain != null <==> pos + left0 < |Contents()|
    {
      hide Flatten, Linked, NoDup, EmptyFrom, Layout.Start, Layout.Ok;
      chain, posInChain, left, i := from, fromPos, left0, k;
      StartReading(Ptr(pos, from, fromPos), k);
      while chain != null && posInChain + left >= chain.off
        invariant left <= left0 && Reading(chain, posInChain, pos + left0 - left, i)
        decreases |g.chains| - i
      {
        NextReading(chain, posInChain, pos + left0 - left, i);
        left := left - (chain.off - posInChain);
        chain := chain.next;
        posInChain := 0;
        i := i + 1;
      }
      if chain != null {
        posInChain := posInChain + left;
      }
    }

    /** Position a pointer at a byte, or move it on by a number of bytes. */
    method PtrSet(p: Ptr, position: nat, add: bool) returns (r: int, q: Ptr)
      requires Valid() && (add && p.pos >= 0 ==> PtrOk(p)) && |Contents()| <= SIZE_MAX
      ensures add && (p.pos < 0 || p.pos + position > SIZE_MAX) ==> r == -1 && q == p
      ensures !(add && (p.pos < 0 || p.pos + position > SIZE_MAX)) ==>
                var to := if add then p.pos + position else position;
                if to <= |Contents()| then r == 0 && q.pos == to && PtrOk(q) &&
                    (to < |Contents()| ==> exists i :: PtrOn(q, i))
                else r == -1 && q == Ptr(-1, null, 0)
    {
      hide Flatten, Linked, NoDup, EmptyFrom, Layout.Ok;
      var from, fromPos, pos: int := first, 0, 0;
      ghost var k: nat := 0;
      if add {
        if p.pos < 0 || SIZE_MAX - position < p.pos {
          return -1, p;
        }
        k :| PtrAt(p, k);
        from, fromPos, pos := p.chain, p.posInChain, p.pos;
      } else {
        FirstPtr();
      }
      StartReading(Ptr(pos, from, fromPos), k);
      var chain, posInChain, left;
      ghost var i;
      chain, posInChain, left, i := Walk(from, fromPos, position, pos, k);
      if chain != null {
        q := Ptr(pos + position, chain, posInChain);
        assert PtrOn(q, i);
        r := 0;
      } else if left == 0 {
        EndPtr();
        q := Ptr(pos + position, null, 0);
        r := 0;
      } else {
        q := Ptr(-1, null, 0);
        r := -1;
      }
    }

    lemma FirstPtr()
      requires Valid()
      ensures PtrAt(Ptr(0, first, 0), 0)
    {
      hide Flatten, Linked, NoDup, EmptyFrom;
      g.StartEnds(0);
    }

    lemma EndPtr()
      requires Valid()
      ensures PtrAt(Ptr(|Contents()|, null, 0), |g.chains|)
    {
      hide Flatten, Linked, NoDup, EmptyFrom;
      g.StartEnds(|g.chains|);
    }

    /** evbuffer_ptr_memcmp: the sign of the first difference; -1 also if the bytes would end behind the contents. */
    method PtrMemcmp(p: Ptr, mem: seq<byte>, ghost k: nat) returns (r: int)
      requires Valid() && PtrAt(p, k) && |Contents()| <= SIZE_MAX
      ensures r == if p.pos < 0 || p.pos + |mem| > |Contents()| then -1
                   else Difference(Contents()[p.pos..p.pos + |mem|], mem)
      ensures r == 0 <==> MatchAt(Contents(), mem, p.pos)
    {
      hide Flatten, Linked, NoDup, EmptyFrom, Layout.Start, Layout.Ok, Difference, SameUpTo, Reading;
      StartReading(p, k);
      if p.pos < 0 || SIZE_MAX - |mem| < p.pos || p.pos + |mem| > totalLen {
        assert !MatchAt(Contents(), mem, p.pos);
        return -1;
      }
      var chain, position: nat, done: nat := p.chain, p.posInChain, 0;
      ghost var i := k;
      SameNone(Contents(), mem, p.pos);
      while done < |mem| && chain != null
        invariant done <= |mem| && SameUpTo(Contents(), mem, p.pos, done)
        invariant Reading(chain, position, p.pos + done, i)
        decreases |g.chains| - i
      {
        var n := if |mem| - done + position > chain.off then chain.off - position else |mem| - done;
        ReadingAt(chain, position, p.pos + done, i);
        CompareStep(p.pos, mem, done, chain, position, n, i);
        r := MemCmp(chain.Data()[position..position + n], mem[done..done + n]);
        if r != 0 {
          return;
        }
        if done + n == |mem| {
          AllSame(Contents(), mem, p.pos);
          return 0;
        }
        NextReading(chain, position, p.pos + done, i);
        done := done + n;
        position := 0;
        chain := chain.next;
        i := i + 1;
      }
      ReadingAt(chain, position, p.pos + done, i);
      AllSame(Contents(), mem, p.pos);
      r := 0;
    }

    lemma CompareStep(pos: nat, mem: seq<byte>, done: nat, chain: Chain, position: nat, n: nat, i: nat)
      requires SameUpTo(Contents(), mem, pos, done) && Reading(chain, position, pos + done, i) && i < |g.chains|
      requires position + n <= |g.data[i]| && done + n <= |mem| && pos + |mem| <= |Contents()|
      ensures var d := Difference(chain.Data()[position..position + n], mem[done..done + n]);
              if d == 0 then SameUpTo(Contents(), mem, pos, done + n)
              else Difference(Contents()[pos..pos + |mem|], mem) == d && !MatchAt(Contents(), mem, pos)
    {
      hide Flatten, Linked, NoDup, EmptyFrom, Layout.Start, Layout.Ok, Difference, SameUpTo, MatchAt, Chain.Data;
      var w := Contents()[pos..pos + |mem|];
      SegmentAt(Contents(), g.Start(i), g.data[i], position, n);
      SegmentAt(Contents(), pos, w, done, n);
      Window(Contents(), mem, pos, done);
      Window(Contents(), mem, pos, done + n);
      Compared(w, mem, done, n);
    }

    /** Find the leftmost occurrence of what that begins at or behind start and ends by end. */
    method SearchRange(what: seq<byte>, start: Option<Ptr>, end: Option<Ptr>) returns (p: Ptr)
      requires Valid() && |Contents()| <= SIZE_MAX && (start.Some? ==> PtrOk(start.value)) &&
               (end.Some? ==> PtrOk(end.value))
      ensures what == [] || |what| > SSIZE_MAX ==> p == if start.Some? then start.value else Ptr(0, first, 0)
      ensures what != [] && |what| <= SSIZE_MAX ==>
                Leftmost(what, p, if start.Some? then start.value.pos else 0,
                         if end.Some? then end.value.pos else |Contents()|)
    {
      hide Flatten, Linked, NoDup, EmptyFrom, Layout.Ok, NoMatch, MatchAt;
      p := Ptr(0, first, 0);
      ghost var k: nat := 0;
      FirstPtr();
      if start.Some? {
        k :| PtrAt(start.value, k);
        p := start.value;
      }
      if what == [] || |what| > SSIZE_MAX {
        return p;
      }
      var to := Ptr(totalLen, null, 0);
      ghost var e: nat := |g.chains|;
      EndPtr();
      if end.Some? {
        e :| PtrAt(end.value, e);
        to := end.value;
      }
      p := SearchLoop(what, p, to, k, e);
    }

    /** p is the leftmost match between a and b, or there is none and p says so. */
    ghost predicate Leftmost(what: seq<byte>, p: Ptr, a: int, b: int)
      reads this
    {
      if p.pos < 0 then p == Ptr(-1, null, 0) && forall j :: a <= j && MatchAt(Contents(), what, j) ==> j + |what| > b
      else
        && PtrOk(p) && p.chain != null && a <= p.pos && p.pos + |what| <= b
        && MatchAt(Contents(), what, p.pos) && NoMatch(Contents(), what, a, p.pos)
    }

    /** Try one position after the other where the first byte of what occurs. */
    method SearchLoop(what: seq<byte>, from: Ptr, end: Ptr, ghost k: nat, ghost e: nat) returns (p: Ptr)
      requires Valid() && |Contents()| <= SIZE_MAX && what != [] && PtrAt(from, k) && PtrAt(end, e)
      ensures Leftmost(what, p, from.pos, end.pos)
    {
      hide Flatten, Linked, NoDup, EmptyFrom, Layout.Ok, Layout.Start, NoMatch, MatchAt;
      p := from;
      ghost var i := k;
      StartReading(p, k);
      StartReading(end, e);
      NoMatchYet(Contents(), what, p.pos);
      while p.chain != null
        invariant from.pos <= p.pos && Reading(p.chain, p.posInChain, p.pos, i)
        invariant NoMatch(Contents(), what, from.pos, p.pos)
        decreases |Contents()| - p.pos, |g.chains| - i
      {
        var verdict, q;
        verdict, q, i := SearchStep(what, p, end, from.pos, i, e);
        if verdict.Found? {
          return q;
        } else if verdict.Missing? {
          return Ptr(-1, null, 0);
        }
        p := q;
      }
      NoMatchTo(Contents(), what, from.pos, |Contents()|, end.pos);
      p := Ptr(-1, null, 0);
    }

    method SearchStep(what: seq<byte>, p: Ptr, end: Ptr, ghost a: int, ghost i: nat, ghost e: nat)
        returns (verdict: Verdict, q: Ptr, ghost k: nat)
      requires Valid() && |Contents()| <= SIZE_MAX && what != [] && PtrAt(end, e) && end.pos <= |Contents()|
      requires 0 <= a <= p.pos && p.chain != null && Reading(p.chain, p.posInChain, p.pos, i) &&
               NoMatch(Contents(), what, a, p.pos)
      ensures verdict.Unknown? ==>
                p.pos <= q.pos && Reading(q.chain, q.posInChain, q.pos, k) &&
                (p.pos < q.pos || i < k <= |g.chains|)
      ensures !verdict.Missing? ==> NoMatch(Contents(), what, a, q.pos)
      ensures verdict.Found? ==>
                PtrAt(q, k) && q.chain != null && a <= q.pos && q.pos + |what| <= end.pos &&
                MatchAt(Contents(), what, q.pos)
      ensures verdict.Missing? ==> forall j :: a <= j && MatchAt(Contents(), what, j) ==> j + |what| > end.pos
    {
      hide Flatten, Linked, NoDup, EmptyFrom, Layout.Ok, Layout.Start, NoMatch, MatchAt, Reading, PtrAt, Valid;
      ReadingIn(p.chain, p.posInChain, p.pos, i);
      var seg := p.chain.Data();
      var at := MemChr(seg, p.posInChain, what[0]);
      SkipTo(Contents(), what, a, p.pos, g.Start(i), seg, p.posInChain, at);
      k := i;
      if at < p.chain.off {
        q := Ptr(p.pos + (at - p.posInChain), p.chain, at);
        ReadOn(p.chain, p.posInChain, p.pos, i, at);
        var cmp := PtrMemcmp(q, what, i);
        if cmp == 0 {
          if q.pos + |what| > end.pos {
            LeftmostEndsLate(Contents(), what, a, q.pos, end.pos);
            return Missing, q, k;
          }
          return Found, q, k;
        }
        SkipOne(Contents(), what, a, q.pos);
        q, k := StepOver(q, i);
      } else {
        q := p;
        if p.chain == end.chain {
          Sizes();
          LastChainEnds(end, e, i);
          NoMatchTo(Contents(), what, a, g.Start(i) + |seg|, end.pos);
          return Missing, q, k;
        }
        ValidCore();
        NextReading(p.chain, p.posInChain, p.pos, i);
        q := Ptr(p.pos + (p.chain.off - p.posInChain), p.chain.next, 0);
        k := i + 1;
      }
      verdict := Unknown;
    }

    /** The segment that is being read, as a part of the contents. */
    lemma ReadingIn(chain: Chain, posInChain: nat, pos: nat, i: nat)
      requires Reading(chain, posInChain, pos, i)
      ensures i < |g.chains| == |g.data| && chain == g.chains[i] && chain.Ok() && chain.Data() == g.data[i]
      ensures posInChain <= chain.off == |g.data[i]| && pos == g.Start(i) + posInChain
      ensures g.Start(i) + chain.off <= |Contents()| && Contents()[g.Start(i)..g.Start(i) + chain.off] == chain.Data()
    {
      hide Flatten, Layout.Start;
    }

    /** A later position in the same chain. */
    lemma ReadOn(chain: Chain, posInChain: nat, pos: nat, i: nat, at: nat)
      requires Reading(chain, posInChain, pos, i) && posInChain <= at && (chain.Ok() ==> at <= chain.off)
      ensures PtrAt(Ptr(pos + (at - posInChain), chain, at), i)
      ensures Reading(chain, at, pos + (at - posInChain), i)
    {
      hide Flatten, Layout.Start;
    }

    /** Go on by one byte, to the next chain if this one is used up. */
    method StepOver(p: Ptr, ghost i: nat) returns (q: Ptr, ghost k: nat)
      requires Valid() && p.pos >= 0 && Reading(p.chain, p.posInChain, p.pos, i) && p.chain != null &&
               p.posInChain < p.chain.off
      ensures q.pos == p.pos + 1 && Reading(q.chain, q.posInChain, q.pos, k)
    {
      hide Flatten, Linked, NoDup, EmptyFrom, Layout.Ok, Layout.Start;
      q, k := Ptr(p.pos + 1, p.chain, p.posInChain + 1), i;
      if q.posInChain == q.chain.off {
        NextReading(q.chain, q.posInChain, q.pos, i);
        q, k := Ptr(q.pos, q.chain.next, 0), i + 1;
      }
    }

    /** A position lies inside its chain. */
    lemma LastChainEnds(end: Ptr, e: nat, i: nat)
      requires g.Ok() && PtrAt(end, e) && i < |g.chains| && g.chains[i] == end.chain
      ensures end.pos <= g.Start(i) + |g.data[i]|
    {
      hide Flatten, Linked, EmptyFrom, NoDup;
      DistinctAt(g.chains, e, i);
    }

    // ---------- evbuffer_search_eol, evbuffer_readln ----------

    /** evbuffer_find_eol_char (any) and evbuffer_strchr: the first CR or LF, or the first c, from p on. */
    method Scan(p: Ptr, any: bool, c: byte, ghost k: nat) returns (ok: bool, q: Ptr, ghost i: nat)
      requires Valid() && PtrAt(p, k)
      ensures ok ==> PtrAt(q, i) && q.chain != null && q.pos >= p.pos
      ensures 0 <= p.pos <= |Contents()|
      ensures var rest := Contents()[p.pos..]; var at := Eol.FirstIn(rest, if any then [Eol.CR, Eol.LF] else [c]);
              if ok then q.pos == p.pos + at && at < |rest| else at == |rest|
    {
      hide Flatten, Linked, NoDup, EmptyFrom, Layout.Ok, Layout.Start, AbsentIn;
      ghost var cs := if any then [Eol.CR, Eol.LF] else [c];
      ok, q, i := false, p, k;
      StartReading(p, k);
      AbsentYet(Contents(), cs, p.pos);
      while q.chain != null
        invariant p.pos <= q.pos && Reading(q.chain, q.posInChain, q.pos, i) && PtrAt(q, i)
        invariant AbsentIn(Contents(), cs, p.pos, q.pos)
        decreases |g.chains| - i
      {
        var hit, next;
        hit, next, i := ScanChain(q, any, c, p.pos, i);
        q := next;
        if hit {
          FirstInAt(Contents(), cs, p.pos, q.pos);
          return true, q, i;
        }
      }
      FirstInAt(Contents(), cs, p.pos, |Contents()|);
    }

    /** Scan what is left of one chain. */
    method ScanChain(q: Ptr, any: bool, c: byte, ghost a: int, ghost i: nat)
        returns (hit: bool, next: Ptr, ghost k: nat)
      requires Valid() && q.chain != null && q.pos >= 0 && Reading(q.chain, q.posInChain, q.pos, i)
      requires AbsentIn(Contents(), if any then [Eol.CR, Eol.LF] else [c], a, q.pos)
      ensures q.pos <= next.pos && Reading(next.chain, next.posInChain, next.pos, k) && PtrAt(next, k)
      ensures AbsentIn(Contents(), if any then [Eol.CR, Eol.LF] else [c], a, next.pos)
      ensures if hit then next.chain != null && next.pos < |Contents()| &&
              Contents()[next.pos] in (if any then [Eol.CR, Eol.LF] else [c])
              else i < k <= |g.chains|
    {
      hide Flatten, Linked, NoDup, EmptyFrom, Layout.Ok, Layout.Start, AbsentIn;
      var seg := q.chain.Data();
      var at := ScanSegment(seg, q.posInChain, any, c);
      AbsentOn(Contents(), if any then [Eol.CR, Eol.LF] else [c], a, q.pos, g.Start(i), seg, q.posInChain, at);
      if at < q.chain.off {
        SegmentByte(Contents(), g.Start(i), seg, at);
        return true, Ptr(q.pos + (at - q.posInChain), q.chain, at), i;
      }
      NextReading(q.chain, q.posInChain, q.pos, i);
      return false, Ptr(q.pos + (q.chain.off - q.posInChain), q.chain.next, 0), i + 1;
    }

    /** How many bytes from p on are in cs. */
    method StrSpn(p: Ptr, cs: seq<byte>, ghost k: nat) returns (count: nat, q: Ptr)
      requires Valid() && PtrAt(p, k) && 0 <= p.pos <= |Contents()|
      ensures count == Eol.Span(Contents()[p.pos..], cs) && q.pos == p.pos + count
      ensures PtrOk(q) <==> p.chain == null || q.pos < |Contents()| || (g.data != [] && g.data[|g.data| - 1] == [])
    {
      hide Flatten, Linked, NoDup, EmptyFrom, Layout.Ok, Layout.Start, Reading;
      count, q := 0, p;
      ghost var rest, i := Contents()[p.pos..], k;
      StartReading(p, k);
      ReadingAt(p.chain, p.posInChain, p.pos, k);
      if p.chain == null {
        return;
      }
      var chain, n: nat := p.chain, p.posInChain;
      while true
        invariant chain != null && Reading(chain, n, p.pos + count, i) && count <= Eol.Span(rest, cs)
        decreases |g.chains| - i, |rest| - count
      {
        ReadingAt(chain, n, p.pos + count, i);
        if n < chain.off {
          assert rest[count] == Contents()[p.pos + count];
          if chain.Data()[n] !in cs {
            q := Ptr(p.pos + count, chain, n);
            ReadingOk(chain, n, p.pos + count, i);
            return;
          }
          n, count := n + 1, count + 1;
        } else {
          NextReading(chain, n, p.pos + count, i);
          ReadingAt(chain.next, 0, p.pos + count + |g.data[i]| - n, i + 1);
          if chain.next == null {
            q := Ptr(p.pos + count, chain, 0);
            LastReading(chain, n, p.pos + count, i);
            return;
          }
          chain, n, i := chain.next, 0, i + 1;
        }
      }
    }

    lemma ReadingOk(chain: Chain?, posInChain: nat, pos: nat, i: nat)
      requires Reading(chain, posInChain, pos, i)
      ensures PtrOk(Ptr(pos, chain, posInChain))
    {
      assert PtrAt(Ptr(pos, chain, posInChain), i);
    }

    /** Behind the data of the last chain: a pointer to its start is right only if it holds nothing. */
    lemma LastReading(chain: Chain, n: nat, pos: nat, i: nat)
      requires Valid() && Reading(chain, n, pos, i) && i + 1 == |g.chains| && n == chain.off && pos == |Contents()|
      ensures PtrOk(Ptr(pos, chain, 0)) <==> g.data[i] == []
    {
      hide Flatten, Linked, NoDup, EmptyFrom, Layout.Start;
      ReadingAt(chain, n, pos, i);
      if g.data[i] == [] {
        assert PtrAt(Ptr(pos, chain, 0), i);
      } else if PtrOk(Ptr(pos, chain, 0)) {
        var j :| PtrAt(Ptr(pos, chain, 0), j);
        DistinctAt(g.chains, i, j);
      }
    }

    /** Step back by some bytes. */
    method PtrSubtract(p: Ptr, howfar: nat, ghost k: nat) returns (r: int, q: Ptr)
      requires Valid() && |Contents()| <= SIZE_MAX && PtrAt(p, k)
      ensures r == if howfar > p.pos then -1 else 0
      ensures r == 0 ==> q.pos == p.pos - howfar && PtrOk(q) && (howfar > 0 ==> exists i :: PtrOn(q, i))
    {
      hide Flatten, Linked, NoDup, EmptyFrom, Layout.Ok, Layout.Start;
      StartReading(p, k);
      q := p;
      if p.pos < 0 {
        return -1, q;
      }
      if howfar > p.pos {
        return -1, q;
      }
      if p.chain != null && howfar <= p.posInChain {
        q := Ptr(p.pos - howfar, p.chain, p.posInChain - howfar);
        assert PtrAt(q, k) && (howfar > 0 ==> PtrOn(q, k));
        return 0, q;
      }
      r, q := PtrSet(p, p.pos - howfar, false);
    }

    /** evbuffer_getchr: the byte at p. */
    method GetChr(p: Ptr, ghost k: nat) returns (c: int)
      requires Valid() && PtrOn(p, k)
      ensures 0 <= p.pos < |Contents()| && c == Contents()[p.pos]
    {
      hide Flatten, Linked, NoDup, EmptyFrom, Layout.Ok, Layout.Start;
      StartReading(p, k);
      if p.chain == null {
        assert false;
      }
      SegmentByte(Contents(), g.Start(k), p.chain.Data(), p.posInChain);
      c := p.chain.buffer[p.chain.misalign + p.posInChain];
    }

    /** Find the end of the line that begins at start; len is that of its terminator. */
    method SearchEol(start: Option<Ptr>, style: Eol.Style) returns (p: Ptr, len: nat)
      requires Valid() && |Contents()| <= SSIZE_MAX && (start.Some? ==> PtrOk(start.value))
      ensures var from := if start.Some? then start.value.pos else 0;
              && 0 <= from <= |Contents()|
              && match Eol.Find(style, Contents()[from..])
                 case None => p == Ptr(-1, null, 0) && len == 0
                 case At(i, n) => PtrOk(p) && p.pos == from + i && len == n
    {
      hide Flatten, Linked, NoDup, EmptyFrom, Layout.Ok, Layout.Start;
      p, len := Ptr(-1, null, 0), 0;
      ghost var k: nat := 0;
      var it := Ptr(0, first, 0);
      FirstPtr();
      if start.Some? {
        k :| PtrAt(start.value, k);
        it := start.value;
      }
      StartReading(it, k);
      if start.Some? && start.value.chain == null {
        assert Contents()[it.pos..] == [];
        return;
      }
      p, len := EolFrom(it, style, k);
    }

    method EolFrom(it: Ptr, style: Eol.Style, ghost k: nat) returns (p: Ptr, len: nat)
      requires Valid() && |Contents()| <= SSIZE_MAX && PtrAt(it, k) && 0 <= it.pos <= |Contents()|
      ensures EolAt(it, style, p, len)
    {
      hide Valid, Contents, PtrAt, EolAt;
      match style {
        case Any => p, len := EolAny(it, k);
        case CrlfStrict => p, len := EolStrict(it, k);
        case Crlf => p, len := EolCrlf(it, k);
        case Lf => p, len := EolByte(it, Eol.LF, Eol.Lf, k);
        case Nul => p, len := EolByte(it, Eol.NUL, Eol.Nul, k);
      }
    }

    /** p and len are where the style says that the line ends. */
    ghost predicate EolAt(it: Ptr, style: Eol.Style, p: Ptr, len: nat)
      requires 0 <= it.pos <= |Contents()|
      reads this
    {
      match Eol.Find(style, Contents()[it.pos..])
      case None => p == Ptr(-1, null, 0) && len == 0
      case At(i, n) => PtrOk(p) && p.pos == it.pos + i && len == n
    }

    method EolAny(it: Ptr, ghost k: nat) returns (p: Ptr, len: nat)
      requires Valid() && |Contents()| <= SSIZE_MAX && PtrAt(it, k) && 0 <= it.pos <= |Contents()|
      ensures EolAt(it, Eol.Any, p, len)
    {
      hide Flatten, Linked, NoDup, EmptyFrom, Layout.Ok, Layout.Start, Eol.FirstIn, Eol.Span, Eol.FirstCrlf;
      var ok, q, end;
      ghost var i;
      ok, q, i := Scan(it, true, 0, k);
      if !ok {
        return Ptr(-1, null, 0), 0;
      }
      len, end := StrSpn(q, [Eol.CR, Eol.LF], i);
      p := q;
      assert Contents()[it.pos..][q.pos - it.pos..] == Contents()[q.pos..];
    }

    method EolStrict(it: Ptr, ghost k: nat) returns (p: Ptr, len: nat)
      requires Valid() && |Contents()| <= SSIZE_MAX && PtrAt(it, k) && 0 <= it.pos <= |Contents()|
      ensures EolAt(it, Eol.CrlfStrict, p, len)
    {
      hide Flatten, Linked, NoDup, EmptyFrom, Layout.Ok, Layout.Start, Eol.FirstIn, Eol.Span, Eol.FirstCrlf;
      var q := SearchRange([Eol.CR, Eol.LF], Some(it), None);
      CrlfFound(Contents(), it.pos, q.pos);
      if q.pos < 0 {
        return Ptr(-1, null, 0), 0;
      }
      p, len := q, 2;
    }

    /** A CR right before the LF belongs to the terminator. */
    method EolCrlf(it: Ptr, ghost k: nat) returns (p: Ptr, len: nat)
      requires Valid() && |Contents()| <= SSIZE_MAX && PtrAt(it, k) && 0 <= it.pos <= |Contents()|
      ensures EolAt(it, Eol.Crlf, p, len)
    {
      hide Flatten, Linked, NoDup, EmptyFrom, Layout.Ok, Layout.Start, Eol.FirstIn, Eol.Span, Eol.FirstCrlf;
      var ok, q;
      ghost var i;
      ok, q, i := Scan(it, false, Eol.LF, k);
      if !ok {
        return Ptr(-1, null, 0), 0;
      }
      p, len := q, 1;
      if q.pos > it.pos {
        var r, before := PtrSubtract(q, 1, i);
        i :| PtrOn(before, i);
        var c := GetChr(before, i);
        assert Contents()[it.pos..][q.pos - 1 - it.pos] == Contents()[q.pos - 1];
        if c == Eol.CR {
          p, len := before, 2;
        }
      }
    }

    method EolByte(it: Ptr, c: byte, style: Eol.Style, ghost k: nat) returns (p: Ptr, len: nat)
      requires Valid() && |Contents()| <= SSIZE_MAX && PtrAt(it, k) && 0 <= it.pos <= |Contents()|
      requires (style == Eol.Lf && c == Eol.LF) || (style == Eol.Nul && c == Eol.NUL)
      ensures EolAt(it, style, p, len)
    {
      hide Flatten, Linked, NoDup, EmptyFrom, Layout.Ok, Layout.Start, Eol.FirstIn, Eol.Span, Eol.FirstCrlf;
      var ok, q;
      ghost var i;
      ok, q, i := Scan(it, false, c, k);
      if !ok {
        return Ptr(-1, null, 0), 0;
      }
      p, len := q, 1;
    }

    /** Take one line without its terminator from the front. */
    method Readln(style: Eol.Style) returns (line: Option<seq<byte>>)
      requires Valid() && |Contents()| <= SSIZE_MAX
      modifies this, g.chains
      ensures Valid() && unchanged(this`freezeStart, this`freezeEnd)
      ensures forall c :: c in g.chains ==> c in old(g.chains)
      ensures match Eol.Find(style, old(Contents()))
              case At(i, n) =>
                if freezeStart then line == None && Contents() == old(Contents())
                else line == Some(old(Contents())[..i]) && Contents() == old(Contents())[i + n..]
              case None => line == None && Contents() == old(Contents())
    {
      hide Valid, Contents, Eol.Find;
      line := None;
      ghost var s := Contents();
      if freezeStart {
        return;
      }
      var it, extra := SearchEol(Option.None, style);
      assert s[0..] == s;
      if it.pos < 0 {
        return;
      }
      var bytes := TakeLine(it.pos, extra);
      line := Some(bytes);
    }

    method TakeLine(n: nat, extra: nat) returns (line: seq<byte>)
      requires Valid() && n + extra <= |Contents()| && !freezeStart
      modifies this, g.chains
      ensures Valid() && unchanged(this`freezeStart, this`freezeEnd)
      ensures forall c :: c in g.chains ==> c in old(g.chains)
      ensures line == old(Contents())[..n] && Contents() == old(Contents())[n + extra..]
    {
      hide Valid, Contents;
      var got;
      ghost var s := Contents();
      got, line := Remove(n);
      Parts(s, line, Contents(), extra);
      assert forall i :: 0 <= i < |g.chains| ==> g.chains[i] in g.chains && g.chains[i] in old(g.chains);
      var r := Drain(extra);
    }

    /** Read lines until there is no complete one left: nothing is lost, and no line holds a terminator. */
    method ReadLines(style: Eol.Style) returns (lines: seq<seq<byte>>, ghost ends: seq<seq<byte>>)
      requires Valid() && |Contents()| <= SSIZE_MAX && !freezeStart
      modifies this, g.chains
      ensures Valid() && |lines| == |ends|
      ensures old(Contents()) == Weave(lines, ends) + Contents()
      ensures Eol.Find(style, Contents()).None?
      ensures forall k :: 0 <= k < |lines| ==> IsLine(style, lines[k], ends[k])
    {
      hide Flatten, Linked, NoDup, EmptyFrom, Layout.Ok, Layout.Start, Eol.Find, IsLine, Weave;
      lines, ends := [], [];
      WeaveNone();
      var line := Some([]);
      while line.Some?
        invariant Valid() && !freezeStart && |lines| == |ends|
        invariant forall i :: 0 <= i < |g.chains| ==> g.chains[i] in old(g.chains)
        invariant old(Contents()) == Weave(lines, ends) + Contents()
        invariant line == None ==> Eol.Find(style, Contents()).None?
        invariant forall k :: 0 <= k < |lines| ==> IsLine(style, lines[k], ends[k])
        decreases |Contents()|, if line == None then 0 else 1
      {
        ghost var s := Contents();
        ghost var t := Eol.Find(style, s);
        line := Readln(style);
        assert forall i :: 0 <= i < |g.chains| ==> g.chains[i] in g.chains;
        if line.Some? {
          LineCut(style, s);
          WeaveSnoc(lines, ends, line.value, s[t.pos..t.pos + t.len]);
          Regroup(Weave(lines, ends), line.value, s[t.pos..t.pos + t.len], s[t.pos + t.len..]);
          lines, ends := lines + [line.value], ends + [s[t.pos..t.pos + t.len]];
        }
      }
    }
  }
}
