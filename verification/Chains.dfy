/** The chains an evbuffer is made of, and linked segments of them. */
module Chains {
  import opened Bytes
  import opened Counting

  const SIZE_MAX: nat := 0xFFFF_FFFF_FFFF_FFFF
  const CHAIN_MAX: nat := 0x7FFF_FFFF_FFFF_FFFF
  const CHAIN_SIZE: nat := 48
  const MIN_BUFFER_SIZE: nat := 1024
  const CHAIN_MAX_AUTO_SIZE: nat := 4096
  const MAX_TO_REALIGN: nat := 2048
  const MAX_TO_COPY: nat := 4096

  /** The largest payload one chain can be asked to hold. */
  const CHAIN_LIMIT: nat := CHAIN_MAX - CHAIN_SIZE

  class Chain {
    var next: Chain?
    const bufferLen: nat
    var buffer: seq<byte>
    var misalign: nat
    var off: nat

    ghost predicate Ok()
      reads this
    {
      misalign + off <= |buffer| == bufferLen <= CHAIN_LIMIT && 0 < bufferLen
    }

    /** This chain stores exactly bytes and is followed by succ. */
    ghost predicate Holds(bytes: seq<byte>, succ: Chain?)
      reads this
    {
      next == succ && Ok() && Data() == bytes
    }

    /** The bytes stored in this chain. */
    function Data(): (s: seq<byte>)
      requires Ok()
      reads this
      ensures |s| == off
    {
      buffer[misalign..misalign + off]
    }

    function SpaceLen(): nat
      requires Ok()
      reads this
    {
      bufferLen - (misalign + off)
    }

    constructor (len: nat)
      requires 0 < len <= CHAIN_LIMIT
      ensures bufferLen == len && next == null && misalign == 0 && off == 0 && Ok()
    {
      next := null;
      bufferLen := len;
      buffer := seq(len, _ => 0);
      misalign := 0;
      off := 0;
    }

    /** Stands for memcpy(buffer + at, src). */
    method CopyInto(at: nat, src: seq<byte>)
      requires Ok() && at + |src| <= bufferLen
      modifies this`buffer
      ensures Ok() && buffer == old(buffer[..at]) + src + old(buffer[at + |src|..])
    {
      buffer := buffer[..at] + src + buffer[at + |src|..];
    }

    /** Copy bytes behind the first k bytes that will belong to this chain. */
    method CopyBehind(k: nat, bytes: seq<byte>)
      requires misalign + k + |bytes| <= |buffer| == bufferLen
      modifies this`buffer
      ensures |buffer| == bufferLen
      ensures buffer[misalign..misalign + k + |bytes|] == old(buffer[misalign..misalign + k]) + bytes
    {
      buffer := buffer[..misalign + k] + bytes + buffer[misalign + k + |bytes|..];
    }

    /** Copy bytes behind the data of this chain. */
    method Append(bytes: seq<byte>)
      requires Ok() && |bytes| <= SpaceLen()
      modifies this`off, this`buffer
      ensures Ok() && off == old(off) + |bytes| && Data() == old(Data()) + bytes
    {
      CopyInto(misalign + off, bytes);
      off := off + |bytes|;
    }

    /** Copy bytes in front of the data of this chain. */
    method Prepend(bytes: seq<byte>)
      requires Ok() && |bytes| <= misalign
      modifies this`off, this`misalign, this`buffer
      ensures Ok() && off == old(off) + |bytes| && misalign == old(misalign) - |bytes|
      ensures Data() == bytes + old(Data())
    {
      CopyInto(misalign - |bytes|, bytes);
      off := off + |bytes|;
      misalign := misalign - |bytes|;
    }

    /** Store bytes at the end of an empty chain and put it before succ. */
    method FillAtEnd(succ: Chain?, bytes: seq<byte>)
      requires Ok() && off == 0 && |bytes| <= bufferLen
      modifies this
      ensures Holds(bytes, succ)
    {
      next := succ;
      off := |bytes|;
      misalign := bufferLen - |bytes|;
      CopyInto(misalign, bytes);
    }

    /** Move the data to the start of the allocation. */
    method Align()
      requires Ok()
      modifies this`misalign, this`buffer
      ensures Ok() && misalign == 0 && Data() == old(Data())
    {
      CopyInto(0, Data());
      misalign := 0;
    }

    /** Drop n bytes from the front of the data. */
    method Skip(n: nat)
      requires Ok() && n <= off
      modifies this`misalign, this`off
      ensures Ok() && off == old(off) - n && misalign == old(misalign) + n
      ensures Data() == old(Data())[n..]
    {
      misalign := misalign + n;
      off := off - n;
    }

    /** Realign only when it is cheap and makes enough room. */
    predicate ShouldRealign(len: nat)
      requires Ok()
      reads this
    {
      bufferLen - off >= len && off < bufferLen / 2 && off <= MAX_TO_REALIGN
    }
  }

  /** No chain made for that many bytes is larger. */
  function RoundedUp(size: nat): nat {
    2 * size + MIN_BUFFER_SIZE
  }

  /** Allocation rounds up to a power of two; it is refused beyond CHAIN_LIMIT, and when there is no memory. */
  method NewChain(size: nat, memory: bool) returns (chain: Chain?)
    ensures chain == null <==> !memory || size > CHAIN_LIMIT
    ensures chain != null ==>
              fresh(chain) && chain.Ok() && size <= chain.bufferLen &&
              chain.next == null && chain.misalign == 0 && chain.off == 0
    ensures chain != null && size + CHAIN_SIZE <= MIN_BUFFER_SIZE ==> chain.bufferLen + CHAIN_SIZE == MIN_BUFFER_SIZE
    ensures chain != null ==> chain.bufferLen <= RoundedUp(size)
  {
    if size > CHAIN_LIMIT {
      return null;
    }
    var want := size + CHAIN_SIZE;
    var toAlloc := want;
    if want < CHAIN_MAX / 2 {
      toAlloc := MIN_BUFFER_SIZE;
      while toAlloc < want
        invariant MIN_BUFFER_SIZE <= toAlloc <= CHAIN_MAX
        invariant toAlloc == MIN_BUFFER_SIZE || (MIN_BUFFER_SIZE < want && toAlloc < 2 * want)
      {
        toAlloc := toAlloc * 2;
      }
    }
    if !memory {
      return null;
    }
    chain := new Chain(toAlloc - CHAIN_SIZE);
  }

  // ---------- Linked segments ----------

  /** The first chain of the list, or what follows it if it has none. */
  ghost function Head(cs: seq<Chain>, end: Chain?): Chain? {
    if cs == [] then end else cs[0]
  }

  ghost function After(cs: seq<Chain>, i: nat, end: Chain?): Chain? {
    if i + 1 < |cs| then cs[i + 1] else end
  }

  /** The chains cs are linked one to the next, hold the segments ds, and are followed by end. */
  ghost predicate Linked(cs: seq<Chain>, ds: seq<seq<byte>>, end: Chain?)
    reads cs
  {
    && |ds| == |cs|
    && forall i :: 0 <= i < |cs| ==> cs[i].Holds(ds[i], After(cs, i, end))
  }

  lemma LinkedAt(cs: seq<Chain>, ds: seq<seq<byte>>, end: Chain?, k: nat)
    requires Linked(cs, ds, end) && k < |cs|
    ensures cs[k].Holds(ds[k], After(cs, k, end))
  {
  }

  lemma LinkedCut(cs: seq<Chain>, ds: seq<seq<byte>>, end: Chain?, k: nat)
    requires Linked(cs, ds, end) && k <= |cs|
    ensures Linked(cs[..k], ds[..k], Head(cs[k..], end)) && Linked(cs[k..], ds[k..], end)
  {
    var a, b := cs[..k], cs[k..];
    forall i | 0 <= i < |a|
      ensures a[i].Holds(ds[..k][i], After(a, i, Head(b, end)))
    {
      LinkedAt(cs, ds, end, i);
    }
    forall i | 0 <= i < |b|
      ensures b[i].Holds(ds[k..][i], After(b, i, end))
    {
      LinkedAt(cs, ds, end, k + i);
    }
  }

  lemma LinkedJoin(a: seq<Chain>, da: seq<seq<byte>>, b: seq<Chain>, db: seq<seq<byte>>, end: Chain?)
    requires Linked(a, da, Head(b, end)) && Linked(b, db, end)
    ensures Linked(a + b, da + db, end)
  {
    var cs, ds := a + b, da + db;
    forall i | 0 <= i < |cs|
      ensures cs[i].Holds(ds[i], After(cs, i, end))
    {
      if i < |a| {
        assert a[i].Holds(da[i], After(a, i, Head(b, end)));
      } else {
        assert b[i - |a|].Holds(db[i - |a|], After(b, i - |a|, end));
      }
    }
  }

  lemma LinkedNone(end: Chain?)
    ensures Linked([], [], end)
  {
  }

  lemma LinkedOne(c: Chain)
    requires c.Ok()
    ensures Linked([c], [c.Data()], c.next)
  {
  }

  lemma LinkedCons(c: Chain, d: seq<byte>, cs: seq<Chain>, ds: seq<seq<byte>>, end: Chain?)
    requires c.Holds(d, Head(cs, end)) && Linked(cs, ds, end)
    ensures Linked([c] + cs, [d] + ds, end)
  {
    hide Linked;
    LinkedOne(c);
    LinkedJoin([c], [d], cs, ds, end);
  }

  lemma FrontSlice<T>(s: seq<T>, i: nat)
    requires i < |s|
    ensures s[i..] == [s[i]] + s[i + 1..]
  {
  }

  /** Single out the chain at index k. */
  lemma Focus(cs: seq<Chain>, ds: seq<seq<byte>>, end: Chain?, k: nat)
    requires Linked(cs, ds, end) && NoDup(cs) && k < |cs|
    ensures Linked(cs[..k], ds[..k], cs[k])
    ensures cs[k].Holds(ds[k], After(cs, k, end))
    ensures Linked(cs[k + 1..], ds[k + 1..], end)
    ensures cs[k] !in cs[..k] && cs[k] !in cs[k + 1..]
    ensures After(cs, k, end) == Head(cs[k + 1..], end)
  {
    hide Linked;
    LinkedCut(cs, ds, end, k);
    LinkedCut(cs, ds, end, k + 1);
    LinkedAt(cs, ds, end, k);
  }

  lemma Splice<T>(s: seq<T>, k: nat, x: T)
    requires k < |s|
    ensures s[k := x] == s[..k] + ([x] + s[k + 1..])
  {
  }

  /** The converse of Focus, the chain at index k now holding d. */
  lemma Refocus(cs: seq<Chain>, ds: seq<seq<byte>>, end: Chain?, k: nat, d: seq<byte>)
    requires k < |cs| == |ds|
    requires Linked(cs[..k], ds[..k], cs[k])
    requires cs[k].Holds(d, Head(cs[k + 1..], end))
    requires Linked(cs[k + 1..], ds[k + 1..], end)
    ensures Linked(cs, ds[k := d], end)
  {
    hide Linked;
    LinkedOne(cs[k]);
    LinkedJoin([cs[k]], [d], cs[k + 1..], ds[k + 1..], end);
    LinkedJoin(cs[..k], ds[..k], [cs[k]] + cs[k + 1..], [d] + ds[k + 1..], end);
    Splice(cs, k, cs[k]);
    assert cs[k := cs[k]] == cs;
    Splice(ds, k, d);
  }

  lemma DistinctAt(cs: seq<Chain>, i: nat, j: nat)
    requires NoDup(cs) && i < |cs| && j < |cs|
    ensures cs[i] == cs[j] <==> i == j
  {
  }

  /** A chain is not among those behind it. */
  lemma NotBehind(cs: seq<Chain>, j: nat, k: nat)
    requires NoDup(cs) && j < k <= |cs|
    ensures cs[j] !in cs[k..]
  {
  }

  lemma NotInParts(c: Chain, cs: seq<Chain>, k: nat)
    requires c !in cs && k < |cs|
    ensures c !in cs[..k] && c !in cs[k + 1..]
  {
  }

  lemma DistinctCut(cs: seq<Chain>, k: nat)
    requires NoDup(cs) && k <= |cs|
    ensures NoDup(cs[..k]) && NoDup(cs[k..])
    ensures forall c :: c in cs[..k] ==> c !in cs[k..]
  {
  }

  /** The two lists have no chain in common. */
  ghost predicate Disjoint(a: seq<Chain>, b: seq<Chain>) {
    forall c :: c in a ==> c !in b
  }

  lemma DisjointAt(a: seq<Chain>, b: seq<Chain>)
    requires Disjoint(a, b)
    ensures forall i :: 0 <= i < |a| ==> a[i] !in b
  {
  }

  lemma DisjointBoth(a: seq<Chain>, b: seq<Chain>)
    ensures Disjoint(a, b) <==> Disjoint(b, a)
  {
  }

  lemma DistinctJoin(a: seq<Chain>, b: seq<Chain>)
    requires NoDup(a) && NoDup(b)
    requires Disjoint(a, b)
    ensures NoDup(a + b)
  {
    var cs := a + b;
    forall i, j | 0 <= i < j < |cs|
      ensures cs[i] != cs[j]
    {
      assert cs[i] == if i < |a| then a[i] else b[i - |a|];
      assert cs[j] == if j < |a| then a[j] else b[j - |a|];
      assert i < |a| ==> cs[i] in a;
      assert j >= |a| ==> cs[j] in b;
    }
  }
}
