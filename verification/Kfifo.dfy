/**
 * The ring buffer of the workers: a power-of-two array and two 32-bit indices that only ever grow
 * and wrap around.  `index & mask` is the index modulo the size.
 */
module Kfifo {
  import opened Bytes

  const U32: nat := 0x1_0000_0000

  function Pow2(k: nat): (p: nat)
    ensures p > 0
  {
    if k == 0 then 1 else 2 * Pow2(k - 1)
  }

  lemma {:induction false} Pow2Split(a: nat, b: nat)
    ensures Pow2(a + b) == Pow2(a) * Pow2(b)
  {
    if a > 0 {
      Pow2Split(a - 1, b);
      assert Pow2(a + b) == 2 * (Pow2(a - 1) * Pow2(b)) == (2 * Pow2(a - 1)) * Pow2(b);
    }
  }

  /** The slot of the ring that an index falls into. */
  function Slot(x: nat, size: nat): (i: nat)
    requires size > 0
    ensures i < size
  {
    x % size
  }

  /** The size is one at which the index counter wraps without a seam. */
  ghost predicate Divides(size: nat) {
    size > 0 && exists q: nat :: q * size == U32
  }

  lemma MulAtLeast(d: int, size: nat)
    requires size > 0
    ensures d >= 1 ==> d * size >= size
    ensures d <= -1 ==> d * size <= 0 - size
  {
  }

  lemma Remainder(x: nat, q: nat, r: nat, size: nat)
    requires r < size && x == q * size + r
    ensures Slot(x, size) == r
  {
    MulAtLeast(q - x / size, size);
    assert (q - x / size) * size == q * size - x / size * size;
  }

  lemma SlotAgain(x: nat, k: nat, size: nat)
    requires size > 0
    ensures Slot(x + k * size, size) == Slot(x, size)
  {
    assert x + k * size == (x / size + k) * size + x % size;
    Remainder(x + k * size, x / size + k, x % size, size);
  }

  /** An index may be wrapped before it is used. */
  lemma SlotWrapped(x: nat, i: nat, size: nat)
    requires Divides(size)
    ensures Slot(x % U32 + i, size) == Slot(x + i, size)
  {
    var q: nat :| q * size == U32;
    var t := x / U32;
    assert x == x % U32 + t * U32;
    assert t * U32 == (t * q) * size;
    SlotAgain(x % U32 + i, t * q, size);
  }

  /** Indices less than one round apart fall into different slots. */
  lemma SlotsDiffer(x: nat, y: nat, size: nat)
    requires x < y < x + size
    ensures Slot(x, size) != Slot(y, size)
  {
    var q, r, d := x / size, x % size, y - x;
    if r + d < size {
      Remainder(y, q, r + d, size);
    } else {
      assert y == (q + 1) * size + (r + d - size);
      Remainder(y, q + 1, r + d - size, size);
    }
  }

  class KfifoBuffer {
    const raw: array<byte>
    const size: nat
    var readIndex: nat
    var writeIndex: nat

    ghost predicate Valid()
      reads this
    {
      && Divides(size) && 0 < size < U32 && raw.Length == size
      && readIndex < U32 && writeIndex < U32 && Used() <= size
    }

    function Used(): (n: nat)
      reads this
      ensures n < U32
    {
      (writeIndex - readIndex) % U32
    }

    /** The bytes in the ring, oldest first. */
    ghost function Contents(): (s: seq<byte>)
      requires Valid()
      reads this, raw
      ensures |s| == Used()
    {
      seq(Used(), i requires 0 <= i < Used() reads this, raw => raw[Slot(readIndex + i, raw.Length)])
    }

    /** Sizes are powers of two from 2^10 to 2^26. */
    constructor (sizePower: int)
      ensures Valid() && Contents() == [] && fresh(raw)
      ensures size == Pow2(if sizePower < 10 then 10 else if sizePower > 26 then 26 else sizePower)
    {
      var k: nat := if sizePower < 10 then 10 else if sizePower > 26 then 26 else sizePower;
      PowerFits(k);
      size := Pow2(k);
      raw := new byte[Pow2(k)];
      readIndex, writeIndex := 0, 0;
      new;
      hide Slot, Divides, Pow2;
      assert Used() == 0;
    }

    function Free(): (n: nat)
      requires Valid()
      reads this
      ensures n == size - Used()
    {
      Differences(readIndex, writeIndex, size);
      (size - writeIndex + readIndex) % U32
    }

    /** The two memcpy calls of put: behind the write index, then from the start of the ring. */
    method Store(data: seq<byte>)
      requires Valid() && |data| <= size - Used()
      modifies raw
      ensures Valid() && Contents() == old(Contents())
      ensures forall i :: 0 <= i < |data| ==> raw[Slot(writeIndex + i, size)] == data[i]
    {
      hide Slot, Divides;
      ghost var before := Contents();
      CopyIn(raw, Slot(writeIndex, size), data);
      forall i | 0 <= i < |data|
        ensures raw[Slot(writeIndex + i, size)] == data[i]
      {
        SlotAhead(writeIndex, i, size);
      }
      forall i | 0 <= i < Used()
        ensures Contents()[i] == before[i]
      {
        OtherSlots(i, data);
      }
    }

    static method CopyIn(raw: array<byte>, w: nat, data: seq<byte>)
      requires w < raw.Length && |data| <= raw.Length
      modifies raw
      ensures var first := Min(|data|, raw.Length - w);
              forall x :: 0 <= x < raw.Length ==>
                            raw[x] == if w <= x < w + first then data[x - w] else if x < |data| - first
                                then data[first + x] else old(raw[x])
    {
      var first := Min(|data|, raw.Length - w);
      forall i | 0 <= i < first {
        raw[w + i] := data[i];
      }
      forall i | 0 <= i < |data| - first {
        raw[i] := data[first + i];
      }
    }

    /** What is stored and the slots of the next bytes do not meet. */
    lemma OtherSlots(i: nat, data: seq<byte>)
      requires Valid() && i < Used() && |data| <= size - Used()
      ensures var w := Slot(writeIndex, size); var first := Min(|data|, size - w); var x := Slot(readIndex + i, size);
              !(w <= x < w + first) && !(x < |data| - first)
    {
      hide Slot;
      var w, x := Slot(writeIndex, size), Slot(readIndex + i, size);
      var first := Min(|data|, size - w);
      if w <= x < w + first {
        NotMet(i, x - w);
        SlotAhead(writeIndex, x - w, size);
        assert false;
      }
      if x < |data| - first {
        NotMet(i, size - w + x);
        SlotAhead(writeIndex, size - w + x, size);
        assert false;
      }
    }

    lemma NotMet(i: nat, j: nat)
      requires Valid() && i < Used() && j < size - Used()
      ensures Slot(readIndex + i, size) != Slot(writeIndex + j, size)
    {
      hide Slot, Divides;
      Differences(readIndex, writeIndex, size);
      SlotWrapped(readIndex + Used(), j, size);
      SlotsDiffer(readIndex + i, readIndex + Used() + j, size);
    }

    /** The two memcpy calls of get and peek. */
    method Load(len: nat) returns (out: seq<byte>)
      requires Valid() && len <= Used()
      ensures out == Contents()[..len]
    {
      hide Slot, Divides;
      var r := Slot(readIndex, size);
      var first := Min(len, size - r);
      out := raw[r..r + first] + raw[..len - first];
      forall i | 0 <= i < len
        ensures out[i] == Contents()[i]
      {
        SlotAhead(readIndex, i, size);
      }
    }

    /** The write index moves over bytes that were stored. */
    method Publish(ghost data: seq<byte>, len: nat)
      requires Valid() && len == |data| <= size - Used()
      requires forall i :: 0 <= i < |data| ==> raw[Slot(writeIndex + i, size)] == data[i]
      modifies this`writeIndex
      ensures Valid() && Contents() == old(Contents()) + data
    {
      hide Slot, Divides;
      BehindContents(data);
      PutCount(readIndex, writeIndex, len);
      writeIndex := (writeIndex + len) % U32;
    }

    /** Counted from the read index, the slots behind the write index are those behind the contents. */
    lemma BehindContents(data: seq<byte>)
      requires Valid() && |data| <= size - Used()
      requires forall i :: 0 <= i < |data| ==> raw[Slot(writeIndex + i, size)] == data[i]
      ensures forall i :: 0 <= i < |data| ==> raw[Slot(readIndex + (Used() + i), size)] == data[i]
    {
      hide Slot, Divides;
      forall i | 0 <= i < |data|
        ensures raw[Slot(readIndex + (Used() + i), size)] == data[i]
      {
        SlotWrapped(readIndex + Used(), i, size);
        assert writeIndex == (readIndex + Used()) % U32;
        assert readIndex + (Used() + i) == readIndex + Used() + i;
      }
    }

    /** The read index moves over bytes that were taken. */
    method Consume(len: nat)
      requires Valid() && len <= Used()
      modifies this`readIndex
      ensures Valid() && Contents() == old(Contents())[len..] && readIndex == (old(readIndex) + len) % U32
    {
      hide Slot, Divides;
      ghost var was, r := Contents(), readIndex;
      GetCount(readIndex, writeIndex, len);
      readIndex := (readIndex + len) % U32;
      forall i | 0 <= i < Used()
        ensures Contents()[i] == was[len + i]
      {
        SlotWrapped(r + len, i, size);
      }
    }

    /** put: as much as fits. */
    method Put(data: seq<byte>) returns (n: nat)
      requires Valid()
      modifies this`writeIndex, raw
      ensures Valid() && n == Min(|data|, size - old(Used())) && Contents() == old(Contents()) + data[..n]
    {
      n := Min(|data|, Free());
      Store(data[..n]);
      Publish(data[..n], n);
    }

    /** putn: all or nothing. */
    method PutAll(data: seq<byte>) returns (n: nat)
      requires Valid()
      modifies this`writeIndex, raw
      ensures Valid() && n == if |data| <= size - old(Used()) then |data| else 0
      ensures Contents() == old(Contents()) + data[..n]
    {
      if |data| > Free() {
        assert data[..0] == [];
        return 0;
      }
      n := |data|;
      assert data[..n] == data;
      Store(data);
      Publish(data, n);
    }

    /** peek */
    method Peek(len: nat) returns (out: seq<byte>)
      requires Valid()
      ensures out == Contents()[..Min(len, |Contents()|)]
    {
      out := Load(Min(len, Used()));
    }

    /** peekn: all or nothing. */
    method PeekAll(len: nat) returns (out: seq<byte>)
      requires Valid()
      ensures out == if len <= |Contents()| then Contents()[..len] else []
    {
      if len > Used() {
        return [];
      }
      out := Load(len);
    }

    /** get: what peek shows is gone afterwards. */
    method Get(len: nat) returns (out: seq<byte>)
      requires Valid()
      modifies this`readIndex
      ensures Valid() && |out| == Min(len, |old(Contents())|) && old(Contents()) == out + Contents()
    {
      out := Load(Min(len, Used()));
      Consume(Min(len, Used()));
    }

    /** getn: all or nothing. */
    method GetAll(len: nat) returns (out: seq<byte>)
      requires Valid()
      modifies this`readIndex
      ensures Valid() && |out| == (if len <= |old(Contents())| then len else 0) && old(Contents()) == out + Contents()
    {
      if len > Used() {
        return [];
      }
      out := Load(len);
      Consume(len);
    }

    /** commitRead drops bytes that were peeked at; it does not look whether there are so many.  If there are not,
        the ring is still in order only if the index wrapped so far that it went back over free slots. */
    method CommitRead(len: nat) returns (r: nat)
      requires Valid() && len < U32
      modifies this`readIndex
      ensures r == len && readIndex == (old(readIndex) + len) % U32
      ensures Valid() <==> len <= old(Used()) || U32 - len <= size - old(Used())
      ensures len <= old(Used()) ==> Contents() == old(Contents())[len..]
    {
      hide Slot, Divides, Contents, Used;
      r := len;
      if len <= Used() {
        Consume(len);
      } else {
        Overtake(len);
      }
    }

    /** The read index passes the write index. */
    method Overtake(len: nat)
      requires Valid() && Used() < len < U32
      modifies this`readIndex
      ensures readIndex == (old(readIndex) + len) % U32
      ensures Valid() <==> U32 - len <= size - old(Used())
    {
      hide Slot, Divides;
      TakenCount(readIndex, writeIndex, len);
      readIndex := (readIndex + len) % U32;
    }
  }

  /** A byte is committed as read from an empty ring. */
  method ReadTooMuch() returns (k: KfifoBuffer, r: nat)
    ensures fresh(k) && r == 1 && !k.Valid()
  {
    hide Slot, Divides;
    assert Pow2(10) < U32 - 1 by { Pow2At10(); }
    k := new KfifoBuffer(10);
    r := k.CommitRead(1);
  }

  lemma Pow2At10()
    ensures Pow2(10) == 1024
  {
  }

  /** Index differences, modulo the wrap. */
  lemma Differences(r: nat, w: nat, size: nat)
    requires r < U32 && w < U32 && (w - r) % U32 <= size < U32
    ensures (size - w + r) % U32 == size - (w - r) % U32
    ensures w == (r + (w - r) % U32) % U32
  {
    if w >= r {
      assert (w - r) % U32 == w - r;
    } else {
      assert (w - r) % U32 == w - r + U32;
    }
  }

  lemma TakenCount(r: nat, w: nat, len: nat)
    requires r < U32 && w < U32 && len < U32
    ensures var used := (w - r) % U32;
            (w - (r + len) % U32) % U32 == if len <= used then used - len else used - len + U32
  {
  }

  lemma PutCount(r: nat, w: nat, len: nat)
    requires r < U32 && w < U32 && (w - r) % U32 + len < U32
    ensures ((w + len) % U32 - r) % U32 == (w - r) % U32 + len && w == (r + (w - r) % U32) % U32
  {
  }

  lemma GetCount(r: nat, w: nat, len: nat)
    requires r < U32 && w < U32 && len <= (w - r) % U32
    ensures (w - (r + len) % U32) % U32 == (w - r) % U32 - len
  {
  }

  lemma SlotAhead(x: nat, i: nat, size: nat)
    requires size > 0 && i < size
    ensures Slot(x + i, size) == if Slot(x, size) + i < size then Slot(x, size) + i else Slot(x, size) + i - size
  {
    var q, r := x / size, x % size;
    if r + i < size {
      Remainder(x + i, q, r + i, size);
    } else {
      assert x + i == (q + 1) * size + (r + i - size);
      Remainder(x + i, q + 1, r + i - size, size);
    }
  }

  lemma Pow2At32()
    ensures Pow2(32) == U32
  {
    assert Pow2(8) == 256;
    Pow2Split(8, 8);
    Pow2Split(16, 16);
  }

  lemma PowerFits(k: nat)
    requires k <= 26
    ensures Divides(Pow2(k)) && Pow2(k) < U32
  {
    hide Pow2;
    Pow2At32();
    Pow2Split(32 - k, k);
    Halve(32 - k);
    MulMore(Pow2(31 - k), Pow2(k));
  }

  lemma Halve(k: nat)
    requires k > 0
    ensures Pow2(k) == 2 * Pow2(k - 1)
  {
  }

  lemma MulMore(a: nat, b: nat)
    requires a > 0 && b > 0
    ensures (2 * a) * b > b
  {
  }
}
